/** Serving one HTTPI claim: the adapter's writes to the worker-to-client ring, outcome by outcome. */
module ResponseWriter {
  import opened Bytes
  import opened RequestEnvelope
  import opened ResponseEnvelope
  import RingProtocol
  import R = SharedRing

  /** The ring carries a prefix of `target` beyond `base`, and is closed only once all of it is there. */
  ghost predicate Serving(ring: R.SharedRing, base: seq<byte>, done: seq<byte>, target: seq<byte>)
    reads ring, ring.bytes
  {
    && ring.Valid() && !ring.closed
    && ring.sent == base + done && done <= target
    && ring.write + |target| - |done| <= RingProtocol.MAX_INT32
  }

  /** The claim is gone, or the ring filled up with what the peer had released before. */
  ghost predicate Stuck(ring: R.SharedRing, released: seq<byte>)
    reads ring
  {
    !ring.Owned() || |ring.sent| >= |released| + ring.ringCap
  }

  /** What the caller sees afterwards: a prefix of the one sentence, all of it when complete, closed only then. */
  twostate predicate Served(ring: R.SharedRing, target: seq<byte>, completed: bool)
    reads ring, ring.bytes
  {
    && ring.Valid() && ring.OutsideUnchanged()
    && old(ring.sent) <= ring.sent <= old(ring.sent) + target
    && (completed ==> ring.sent == old(ring.sent) + target)
    && (ring.closed ==> completed)
    && (completed && ring.Owned() ==> ring.closed)
    && (!completed ==> Stuck(ring, old(ring.got)))
  }

  /** One `writeWorkerChunk` of the next `part` of the sentence; `false` when the claim was lost. */
  method Emit(ring: R.SharedRing, part: seq<byte>, wakeups: nat,
              ghost base: seq<byte>, ghost done: seq<byte>, ghost target: seq<byte>)
    returns (ok: bool)
    requires Serving(ring, base, done, target) && done + part <= target
    modifies ring, ring.bytes
    ensures ring.Valid() && ring.OutsideUnchanged() && !ring.closed && base + done <= ring.sent <= base + target
    ensures ok ==> Serving(ring, base, done + part, target)
    ensures old(ring.got) <= ring.got && (!ok ==> Stuck(ring, old(ring.got)))
  {
    var r := ring.WriteWorkerChunk(part, wakeups);
    assert base + done + part == base + (done + part);
    ok := r.Written?;
  }

  /** Close after the last part: nothing is closed when that part was cut short. */
  method EmitLast(ring: R.SharedRing, part: seq<byte>, wakeups: nat,
                  ghost base: seq<byte>, ghost done: seq<byte>, ghost target: seq<byte>)
    returns (completed: bool)
    requires Serving(ring, base, done, target) && done + part == target
    modifies ring, ring.bytes
    ensures ring.Valid() && ring.OutsideUnchanged() && base + done <= ring.sent <= base + target
    ensures completed ==> ring.sent == base + target
    ensures ring.closed ==> completed
    ensures completed && ring.Owned() ==> ring.closed
    ensures !completed ==> Stuck(ring, old(ring.got))
  {
    var r := ring.WriteWorkerChunk(part, wakeups);
    assert base + done + part == base + target;
    completed := r.Written?;
    if !r.Blocked? { ring.CloseOutput(); }
  }

  /** A terminal frame, with its own head when none has been written. */
  method WriteTerminal(ring: R.SharedRing, evidence: Evidence, message: seq<byte>, includeHead: bool, wakeups: nat,
                       ghost base: seq<byte>, ghost done: seq<byte>, ghost target: seq<byte>)
    returns (completed: bool)
    requires Serving(ring, base, done, target)
    requires target == done + (if includeHead then ResponseHead(0, [], true) else [])
                            + EndingFrame(Terminal(evidence, SanitizedDetail(message)))
    modifies ring, ring.bytes
    ensures ring.Valid() && ring.OutsideUnchanged() && base + done <= ring.sent <= base + target
    ensures completed ==> ring.sent == base + target
    ensures ring.closed ==> completed
    ensures completed && ring.Owned() ==> ring.closed
    ensures !completed ==> Stuck(ring, old(ring.got))
  {
    hide R.SharedRing.Valid, ResponseHead, EndingFrame, SanitizedDetail;
    ghost var done' := done;
    if includeHead {
      var ok := Emit(ring, ResponseHead(0, [], true), wakeups, base, done, target);
      if !ok { return false; }
      done' := done + ResponseHead(0, [], true);
    } else {
      assert done + [] == done;
    }
    var frame := EndingFrame(Terminal(evidence, SanitizedDetail(message)));
    completed := EmitLast(ring, frame, wakeups, base, done', target);
  }

  // The body loop.

  lemma {:induction false} ChunkFramesAppend(a: seq<seq<byte>>, b: seq<seq<byte>>)
    requires forall i :: 0 <= i < |a| ==> |a[i]| <= IO_CHUNK_BYTES
    requires forall i :: 0 <= i < |b| ==> |b[i]| <= IO_CHUNK_BYTES
    ensures ChunkFrames(a + b) == ChunkFrames(a) + ChunkFrames(b)
  {
    hide Frame;
    if a == [] {
      assert a + b == b;
    } else {
      ChunkFramesAppend(a[1..], b);
      assert (a + b)[1..] == a[1..] + b;
      Regroup(Frame(BODY_CHUNK, a[0], NO_EVIDENCE), ChunkFrames(a[1..]), ChunkFrames(b));
    }
  }

  lemma {:induction false} AllPiecesAppend(a: seq<seq<byte>>, b: seq<seq<byte>>)
    ensures AllPieces(a + b) == AllPieces(a) + AllPieces(b)
  {
    hide Pieces;
    if a == [] {
      assert a + b == b;
    } else {
      AllPiecesAppend(a[1..], b);
      assert (a + b)[1..] == a[1..] + b;
      Regroup(Pieces(a[0]), AllPieces(a[1..]), AllPieces(b));
    }
  }

  /** The frames of what is left of a chunk are the next piece's frame and those of what is left after it. */
  lemma PiecesFrom(value: seq<byte>, offset: nat)
    requires offset < |value| - IO_CHUNK_BYTES
    ensures ChunkFrames(Pieces(value[offset..]))
         == Frame(BODY_CHUNK, value[offset..offset + IO_CHUNK_BYTES], NO_EVIDENCE)
            + ChunkFrames(Pieces(value[offset + IO_CHUNK_BYTES..]))
  {
    var v := value[offset..];
    assert v[..IO_CHUNK_BYTES] == value[offset..offset + IO_CHUNK_BYTES];
    assert v[IO_CHUNK_BYTES..] == value[offset + IO_CHUNK_BYTES..];
    var first := [v[..IO_CHUNK_BYTES]];
    ChunkFramesAppend(first, Pieces(v[IO_CHUNK_BYTES..]));
    OneFrame(v[..IO_CHUNK_BYTES]);
  }

  lemma OneFrame(value: seq<byte>)
    requires |value| <= IO_CHUNK_BYTES
    ensures ChunkFrames([value]) == Frame(BODY_CHUNK, value, NO_EVIDENCE)
  {
    hide Frame;
    assert [value][1..] == [];
    assert ChunkFrames([value]) == Frame(BODY_CHUNK, value, NO_EVIDENCE) + ChunkFrames([]);
  }

  lemma SmallChunk(value: seq<byte>)
    requires |value| <= IO_CHUNK_BYTES
    ensures ChunkFrames(Pieces(value)) == Frame(BODY_CHUNK, value, NO_EVIDENCE)
  {
    hide ChunkFrames;
    OneFrame(value);
  }

  /** All frames of one chunk read from the response body. */
  method EmitChunk(ring: R.SharedRing, value: seq<byte>, wakeups: nat,
                   ghost base: seq<byte>, ghost done: seq<byte>, ghost target: seq<byte>)
    returns (ok: bool)
    requires Serving(ring, base, done, target) && done + ChunkFrames(Pieces(value)) <= target
    modifies ring, ring.bytes
    ensures ring.Valid() && ring.OutsideUnchanged() && !ring.closed && base + done <= ring.sent <= base + target
    ensures ok ==> Serving(ring, base, done + ChunkFrames(Pieces(value)), target)
    ensures old(ring.got) <= ring.got && (!ok ==> Stuck(ring, old(ring.got)))
  {
    hide R.SharedRing.Valid, Frame, Pieces, ChunkFrames;
    if |value| > IO_CHUNK_BYTES {
      var offset := 0;
      ghost var out := done;
      assert value[0..] == value;
      while offset < |value|
        invariant Serving(ring, base, out, target) && done <= out && 0 <= offset
        invariant old(ring.got) <= ring.got && ring.OutsideUnchanged()
        invariant offset < |value| ==> out + ChunkFrames(Pieces(value[offset..])) == done + ChunkFrames(Pieces(value))
        invariant offset >= |value| ==> out == done + ChunkFrames(Pieces(value))
        decreases |value| - offset
      {
        var piece := value[offset..Min(offset + IO_CHUNK_BYTES, |value|)];
        ghost var frame := Frame(BODY_CHUNK, piece, NO_EVIDENCE);
        if offset + IO_CHUNK_BYTES < |value| {
          PiecesFrom(value, offset);
          Regroup(out, frame, ChunkFrames(Pieces(value[offset + IO_CHUNK_BYTES..])));
        } else {
          assert piece == value[offset..];
          SmallChunk(piece);
        }
        ok := Emit(ring, Frame(BODY_CHUNK, piece, NO_EVIDENCE), wakeups, base, out, target);
        if !ok { return; }
        out, offset := out + frame, offset + IO_CHUNK_BYTES;
      }
      ok := true;
    } else {
      SmallChunk(value);
      ok := Emit(ring, Frame(BODY_CHUNK, value, NO_EVIDENCE), wakeups, base, done, target);
    }
  }

  /** The response body and its closing frame, behind a head already written. */
  method ServeBody(ring: R.SharedRing, chunks: seq<seq<byte>>, end: BodyEnd, wakeups: nat,
                   ghost base: seq<byte>, ghost head: seq<byte>, ghost ending: Ending)
    returns (completed: bool)
    requires ending == if end.Exhausted? then Complete else Terminal(BODY_EVIDENCE, SanitizedDetail(end.message))
    requires Serving(ring, base, head, head + ChunkFrames(AllPieces(chunks)) + EndingFrame(ending))
    modifies ring, ring.bytes
    ensures ring.Valid() && ring.OutsideUnchanged()
    ensures base + head <= ring.sent <= base + (head + ChunkFrames(AllPieces(chunks)) + EndingFrame(ending))
    ensures completed ==> ring.sent == base + (head + ChunkFrames(AllPieces(chunks)) + EndingFrame(ending))
    ensures ring.closed ==> completed
    ensures completed && ring.Owned() ==> ring.closed
    ensures !completed ==> Stuck(ring, old(ring.got))
  {
    hide R.SharedRing.Valid, EndingFrame, ChunkFrames, AllPieces, Pieces, SanitizedDetail;
    ghost var target := head + ChunkFrames(AllPieces(chunks)) + EndingFrame(ending);
    ghost var done := head;
    NoPieces(head);
    for i := 0 to |chunks|
      invariant done == head + ChunkFrames(AllPieces(chunks[..i]))
      invariant Serving(ring, base, done, target) && head <= done
      invariant old(ring.got) <= ring.got && ring.OutsideUnchanged()
    {
      NextPieces(chunks, i, head, EndingFrame(ending));
      var ok := EmitChunk(ring, chunks[i], wakeups, base, done, target);
      if !ok { return false; }
      done := done + ChunkFrames(Pieces(chunks[i]));
    }
    assert chunks[..|chunks|] == chunks;
    if end.Exhausted? {
      EndFrameBytes();
      completed := EmitLast(ring, Frame(BODY_END, [], NO_EVIDENCE), wakeups, base, done, target);
    } else {
      assert done + [] == done;
      completed := WriteTerminal(ring, BODY_EVIDENCE, end.message, false, wakeups, base, done, target);
    }
  }

  lemma EndFrameBytes()
    ensures EndingFrame(Complete) == Frame(BODY_END, [], NO_EVIDENCE)
  {
  }

  lemma NoPieces(head: seq<byte>)
    ensures head + ChunkFrames(AllPieces([])) == head
  {
    assert ChunkFrames(AllPieces([])) == [];
  }

  lemma BodyBytesAppend(a: seq<seq<byte>>, b: seq<seq<byte>>)
    ensures ChunkFrames(AllPieces(a + b)) == ChunkFrames(AllPieces(a)) + ChunkFrames(AllPieces(b))
  {
    hide ChunkFrames, AllPieces;
    AllPiecesAppend(a, b);
    ChunkFramesAppend(AllPieces(a), AllPieces(b));
  }

  lemma PiecesStep(before: seq<seq<byte>>, c: seq<byte>, head: seq<byte>)
    ensures head + ChunkFrames(AllPieces(before + [c]))
         == head + ChunkFrames(AllPieces(before)) + ChunkFrames(Pieces(c))
  {
    hide ChunkFrames, Pieces, AllPieces;
    BodyBytesAppend(before, [c]);
    OneChunk(c);
    Regroup(head, ChunkFrames(AllPieces(before)), ChunkFrames(Pieces(c)));
  }

  lemma PiecesWithin(upto: seq<seq<byte>>, after: seq<seq<byte>>, head: seq<byte>, tail: seq<byte>)
    ensures head + ChunkFrames(AllPieces(upto)) <= head + ChunkFrames(AllPieces(upto + after)) + tail
  {
    hide ChunkFrames, AllPieces;
    BodyBytesAppend(upto, after);
    PrefixOfWhole(head, ChunkFrames(AllPieces(upto)), ChunkFrames(AllPieces(after)), tail);
  }

  lemma NextPieces(chunks: seq<seq<byte>>, i: nat, head: seq<byte>, tail: seq<byte>)
    requires i < |chunks|
    ensures head + ChunkFrames(AllPieces(chunks[..i + 1]))
         == head + ChunkFrames(AllPieces(chunks[..i])) + ChunkFrames(Pieces(chunks[i]))
    ensures head + ChunkFrames(AllPieces(chunks[..i + 1])) <= head + ChunkFrames(AllPieces(chunks)) + tail
  {
    hide ChunkFrames, Pieces, AllPieces;
    SplitAt(chunks, i);
    PiecesStep(chunks[..i], chunks[i], head);
    PiecesWithin(chunks[..i + 1], chunks[i + 1..], head, tail);
  }

  lemma PrefixOfWhole(a: seq<byte>, b: seq<byte>, c: seq<byte>, d: seq<byte>)
    ensures a + b <= a + (b + c) + d
  {
    assert a + (b + c) + d == (a + b) + (c + d);
  }

  lemma OneChunk(c: seq<byte>)
    ensures AllPieces([c]) == Pieces(c)
  {
    hide Pieces;
    assert [c][1..] == [];
    assert AllPieces([c]) == Pieces(c) + AllPieces([]);
  }

  /**
   On every outcome, and however the peer drains the ring or drops the claim, the bytes written are a
   prefix of the one sentence the outcome calls for; the output is closed exactly when all of it is there. Less than all
   is written only when the claim was lost or the ring stayed full.
   `message` is the text a refused response head raises.
   */
  method ServeOutcome(ring: R.SharedRing, o: Outcome, message: seq<byte>, wakeups: nat) returns (completed: bool)
    requires ring.Valid() && !ring.closed && WellFormed(SentenceFor(o, message))
    requires ring.write + |Encode(SentenceFor(o, message))| <= RingProtocol.MAX_INT32
    modifies ring, ring.bytes
    ensures Served(ring, Encode(SentenceFor(o, message)), completed)
  {
    hide R.SharedRing.Valid, ResponseHead, ChunkFrames, EndingFrame, AllPieces, SanitizedDetail;
    ghost var base, target := ring.sent, Encode(SentenceFor(o, message));
    match o
    case ParseFailed(m) =>
      if !ring.Owned() { return false; }
      TerminalOnlyBytes(PARSE_EVIDENCE, m);
      completed := WriteTerminal(ring, PARSE_EVIDENCE, m, true, wakeups, base, [], target);
    case FetchFailed(structured, m) =>
      if !ring.Owned() { return false; }
      var evidence := if structured.Some? then Codes(structured.value) else UNSTRUCTURED_EVIDENCE;
      TerminalOnlyBytes(evidence, m);
      completed := WriteTerminal(ring, evidence, m, true, wakeups, base, [], target);
    case Responded(raw, status, headers, chunks, end) =>
      if !raw || !StatusOk(status) || !HeadersFit(headers) {
        TerminalOnlyBytes(HEAD_EVIDENCE, message);
        completed := WriteTerminal(ring, HEAD_EVIDENCE, message, true, wakeups, base, [], target);
      } else {
        var head := ResponseHead(status.value, headers, false);
        assert [] + head == head;
        var ok := Emit(ring, head, wakeups, base, [], target);
        if !ok { return false; }
        ghost var ending := SentenceFor(o, message).ending;
        completed := ServeBody(ring, chunks, end, wakeups, base, head, ending);
      }
  }

  lemma TerminalOnlyBytes(evidence: Evidence, m: seq<byte>)
    ensures WellFormed(TerminalOnly(evidence, m))
    ensures Encode(TerminalOnly(evidence, m))
         == [] + ResponseHead(0, [], true) + EndingFrame(Terminal(evidence, SanitizedDetail(m)))
  {
    hide ResponseHead, EndingFrame, SanitizedDetail;
    var head := ResponseHead(0, [], true);
    assert ChunkFrames([]) == [];
    assert head + [] == head && [] + head == head;
  }
}
