/**
 The adapter's ring code over the shared buffer, run against a peer that moves between any two of the
 adapter's memory accesses.
 */
module SharedRing {
  import opened Bytes
  import opened RingProtocol

  datatype ReadResult =
    | Chunk(bytes: seq<byte>)
    | Ended      // claim lost, or closed with nothing seen
    | Waiting    // still polling when the wake-ups ran out

  datatype WriteResult = Written | Lost | Blocked

  method Remainder(p: nat, cap: nat) returns (r: nat)
    requires 0 < cap
    ensures r == Wrap(p, cap)
  {
    WrapIsRemainder(p, cap);
    r := p % cap;
  }

  class SharedRing {
    const bytes: array<byte>
    const dataOffset: nat
    const ringCap: nat
    var write: int
    var read: int
    var closed: bool
    var claimed: bool
    var aborted: bool
    ghost const start: nat
    ghost var sent: seq<byte>
    ghost var got: seq<byte>

    /** The claim still stands and its signal was not aborted. */
    predicate Owned()
      reads this
    {
      claimed && !aborted
    }

    ghost predicate Layout()
    {
      0 < ringCap && dataOffset + ringCap <= bytes.Length
    }

    ghost function View(): Ring
      requires Layout()
      reads this, bytes
    {
      Ring(bytes[dataOffset..dataOffset + ringCap], start, sent, got, [])
    }

    /** The counter words, inside Int32, measure what was sent and released, and every unread byte is in its cell. */
    ghost predicate Valid()
      reads this, bytes
    {
      && Layout()
      && write == start + |sent| <= MAX_INT32
      && read == start + |got|
      && got <= sent
      && (aborted ==> !claimed)
      && |sent| <= |got| + ringCap
      && forall k {:trigger sent[k]} :: |got| <= k < |sent| ==> bytes[dataOffset + Wrap(start + k, ringCap)] == sent[k]
    }

    /** The object's invariant is the protocol's. */
    lemma ValidIsQueue()
      requires Layout()
      ensures Valid() <==>
                && Queue(View()) && write == View().Write() <= MAX_INT32 && read == View().Read()
                && (aborted ==> !claimed)
    {
    }

    /** Byte `i` of the buffer is a cell of this ring. */
    predicate Owns(i: int)
    {
      dataOffset <= i < dataOffset + ringCap
    }

    /** Bytes of the buffer outside this ring. */
    twostate predicate OutsideUnchanged()
      reads bytes
    {
      forall i :: 0 <= i < bytes.Length && !Owns(i) ==> bytes[i] == old(bytes[i])
    }

    /** What a producing peer may have done meanwhile: sent more, closed, dropped the claim; nothing else. */
    twostate predicate ProducerMoved()
      reads this, bytes
    {
      && Valid() && OutsideUnchanged()
      && old(sent) <= sent && got == old(got) && read == old(read)
      && (old(closed) ==> closed)
      && (Owned() ==> old(Owned()))
    }

    /** What a consuming peer may have done meanwhile: released bytes, dropped the claim; nothing else. */
    twostate predicate ConsumerMoved()
      reads this, bytes
    {
      && Valid()
      && old(got) <= got && sent == old(sent) && write == old(write) && closed == old(closed)
      && (Owned() ==> old(Owned()))
    }

    constructor (bytes: array<byte>, dataOffset: nat, ringCap: nat, start: nat)
      requires 0 < ringCap && dataOffset + ringCap <= bytes.Length && start <= MAX_INT32
      ensures Valid() && sent == [] && got == [] && Owned() && !closed
      ensures this.bytes == bytes && this.dataOffset == dataOffset && this.ringCap == ringCap && this.start == start
    {
      this.bytes, this.dataOffset, this.ringCap, this.start := bytes, dataOffset, ringCap, start;
      write, read, closed, claimed, aborted, sent, got := start, start, false, true, false, [], [];
    }

    // ---- the peer -------------------------------------------------------------------------

    /** Any number of rule-abiding producer moves: store, publish, close the ring, drop the claim. */
    method PeerProduces()
      requires Valid()
      modifies this, bytes
      ensures ProducerMoved()
    {
      var moves: nat :| 0 <= moves;
      while moves > 0
        invariant ProducerMoved()
      {
        moves := moves - 1;
        if * {
          var p: nat, b: byte :| 0 <= p && 0 <= b;
          if write <= p < read + ringCap {
            StoreByte(p, b);
          }
        } else if * {
          var n: nat :| 0 <= n;
          if write + n <= read + ringCap && write + n <= MAX_INT32 {
            Advance(n);
          }
        } else if * {
          closed := true;
        } else {
          DropClaim();
        }
      }
    }

    /** Any number of rule-abiding consumer moves. */
    method PeerConsumes()
      requires Valid()
      modifies this
      ensures ConsumerMoved()
    {
      var moves: nat :| 0 <= moves;
      while moves > 0
        invariant ConsumerMoved()
      {
        moves := moves - 1;
        if * {
          var n: nat :| 0 <= n;
          if read + n <= write {
            got, read := sent[..|got| + n], read + n;
          }
        } else {
          DropClaim();
        }
      }
    }

    /**
     The slot is released or claimed anew, or the region is stopped; the adapter then aborts the claim's signal, at once
     or later, and never before.
     */
    method DropClaim()
      requires Valid()
      modifies this
      ensures Valid() && !claimed && write == old(write) && read == old(read) && closed == old(closed)
      ensures sent == old(sent) && got == old(got)
    {
      claimed := false;
      if * { aborted := true; }
    }

    // ---- single protocol moves on the shared words -----------------------------------------

    /** Store one byte at counter position `p`. */
    method StoreByte(p: nat, b: byte)
      requires Valid() && write <= p < read + ringCap
      modifies bytes
      ensures View() == Apply(old(View()), Scribble(p - start, b)) && Valid() && OutsideUnchanged()
    {
      ghost var before := View();
      ValidIsQueue();
      ScribbleSafe(before, p - start, b);
      WrapIsRemainder(p, ringCap);
      bytes[dataOffset + p % ringCap] := b;
      assert View().cells == before.cells[Cell(before, p - start) := b];
      ValidIsQueue();
    }

    /** Publish `n` bytes: they become part of what was sent. */
    method Advance(n: nat)
      requires Valid() && write + n <= read + ringCap && write + n <= MAX_INT32
      modifies this
      ensures View() == Apply(old(View()), Publish(n)) && Valid()
      ensures got == old(got) && Owned() == old(Owned()) && closed == old(closed)
    {
      ValidIsQueue();
      PublishSafe(View(), n);
      sent := sent + Pending(View(), n);
      write := ToInt32(write + n);
      ValidIsQueue();
    }

    // ---- copyRingOut / copyRingIn ----------------------------------------------------------

    /** `data` is the next |data| unread bytes. */
    ghost predicate Unread(data: seq<byte>)
      reads this
    {
      |got| + |data| <= |sent| && forall i :: 0 <= i < |data| ==> sent[|got| + i] == data[i]
    }

    /** Load unread byte number `j` from ring cell `cell`; the peer may have moved just before. */
    method LoadByte(j: nat, cell: nat, ghost data: seq<byte>) returns (b: byte)
      requires Valid() && Unread(data) && j < |data| && cell == Wrap(read + j, ringCap)
      modifies this, bytes
      ensures ProducerMoved() && Unread(data) && b == data[j]
    {
      PeerProduces();
      assert sent[|got| + j] == data[j];
      b := bytes[dataOffset + cell];
    }

    /** `output.set(bytes.subarray(cell, cell + n), at)` on the ring's cells, byte by byte. */
    method SetOut(output: array<byte>, at: nat, cell: nat, n: nat, ghost data: seq<byte>)
      requires Valid() && Unread(data) && output != bytes && output.Length == |data|
      requires at + n <= |data| && cell + n <= ringCap && (n > 0 ==> cell == Wrap(read + at, ringCap))
      requires forall i :: 0 <= i < at ==> output[i] == data[i]
      modifies this, bytes, output
      ensures ProducerMoved() && Unread(data)
      ensures forall i :: 0 <= i < at + n ==> output[i] == data[i]
    {
      assert 0 < ringCap && read >= 0;
      hide Valid;
      for j := 0 to n
        invariant ProducerMoved() && Unread(data)
        invariant forall i :: 0 <= i < at + j ==> output[i] == data[i]
      {
        CellAfter(read + at, j, ringCap);
        var b := LoadByte(at + j, cell + j, data);
        output[at + j] := b;
      }
    }

    /**
     Copy `length` unread bytes out in two pieces around the wrap. The peer may move before every
     byte that is copied; the result is the next `length` bytes it sent all the same.
     */
    method CopyRingOut(position: nat, length: nat, ghost data: seq<byte>) returns (output: array<byte>)
      requires Valid() && position == read && length == |data| <= write - read && Unread(data)
      modifies this, bytes
      ensures ProducerMoved() && Unread(data)
      ensures fresh(output) && output[..] == data
    {
      output := new byte[length](_ => 0);
      var begin := Remainder(position, ringCap);
      var first := Min(length, ringCap - begin);
      SetOut(output, 0, begin, first, data);
      if length > first {
        CellAfter(position, first, ringCap);
        SetOut(output, first, 0, length - first, data);
      }
    }

    /** `source[from..from + n]` sits in the cells just past the published end. */
    ghost predicate Staged(source: seq<byte>, from: nat, n: nat)
      requires Layout() && write >= 0 && from + n <= |source|
      reads this, bytes
    {
      forall i {:trigger source[i]} :: from <= i < from + n ==>
        bytes[dataOffset + Wrap(write + (i - from), ringCap)] == source[i]
    }

    /** Stage byte number `n` in ring cell `cell`. */
    method PutByte(source: seq<byte>, from: nat, n: nat, cell: nat)
      requires Valid() && write + n < read + ringCap && cell == Wrap(write + n, ringCap)
      requires from + n < |source| && Staged(source, from, n)
      modifies bytes
      ensures Valid() && OutsideUnchanged()
      ensures Staged(source, from, n + 1)
    {
      forall i {:trigger source[i]} | from <= i < from + n
        ensures Wrap(write + (i - from), ringCap) != cell
      {
        CellsDistinct(write + (i - from), write + n, ringCap);
      }
      forall k {:trigger sent[k]} | |got| <= k < |sent|
        ensures Wrap(start + k, ringCap) != cell
      {
        CellsDistinct(start + k, write + n, ringCap);
      }
      bytes[dataOffset + cell] := source[from + n];
    }

    /**
     `bytes.set(source.subarray(from + at, from + at + n), cell)` on the ring's cells; the peer may
     move before every byte.
     */
    method SetIn(source: seq<byte>, from: nat, at: nat, cell: nat, n: nat)
      requires Valid() && from + at + n <= |source| && Staged(source, from, at)
      requires write + at + n <= read + ringCap
      requires cell + n <= ringCap && (n > 0 ==> cell == Wrap(write + at, ringCap))
      modifies this, bytes
      ensures ConsumerMoved() && OutsideUnchanged()
      ensures Staged(source, from, at + n)
    {
      for j := 0 to n
        invariant ConsumerMoved() && OutsideUnchanged()
        invariant Staged(source, from, at + j)
      {
        PeerConsumes();
        CellAfter(write + at, j, ringCap);
        PutByte(source, from, at + j, cell + j);
      }
    }

    /** Copy `length` bytes of `source` into free cells, in two pieces around the wrap. */
    method CopyRingIn(position: nat, source: seq<byte>, sourceOffset: nat, length: nat)
      requires Valid() && position == write && length <= ringCap - (write - read)
      requires sourceOffset + length <= |source|
      modifies this, bytes
      ensures ConsumerMoved() && OutsideUnchanged()
      ensures Staged(source, sourceOffset, length)
    {
      var begin := Remainder(position, ringCap);
      var first := Min(length, ringCap - begin);
      SetIn(source, sourceOffset, 0, begin, first);
      if length > first {
        CellAfter(position, first, ringCap);
        SetIn(source, sourceOffset, first, 0, length - first);
      }
    }

    // ---- readClientChunk / writeWorkerChunk ------------------------------------------------

    /**
     One pass of the polling loop: the claim check, the loads of both counters, the copy and the
     release, or the load of the closed flag, each with the peer free to move in between. `seen` is
     everything that had been sent when the write counter was loaded.
     */
    method PollClient() returns (r: ReadResult, ghost seen: seq<byte>)
      requires Valid()
      modifies this, bytes
      ensures Valid() && OutsideUnchanged() && old(sent) <= seen <= sent
      ensures r.Chunk? ==> 0 < |r.bytes| <= IO_CHUNK_BYTES && got == old(got) + r.bytes
      ensures !r.Chunk? ==> got == old(got)
      ensures r.Ended? && Owned() ==> closed
      ensures !r.Chunk? && Owned() ==> got == seen
    {
      PeerProduces();
      if !Owned() { return Ended, sent; }
      PeerProduces();
      var w := write;
      seen := sent;
      PeerProduces();
      var released := read;
      var available := w - released;
      if available > 0 {
        var length := Min(available, IO_CHUNK_BYTES);
        var chunk := TakeUnread(released, length);
        return Chunk(chunk), seen;
      }
      PeerProduces();
      return if closed then Ended else Waiting, seen;
    }

    /** Copy `length` unread bytes out, then release them. */
    method TakeUnread(position: nat, length: nat) returns (chunk: seq<byte>)
      requires Valid() && position == read && length <= write - read
      modifies this, bytes
      ensures Valid() && OutsideUnchanged() && old(sent) <= sent && |chunk| == length && got == old(got) + chunk
    {
      ghost var data := sent[|got|..|got| + length];
      var copied := CopyRingOut(position, length, data);
      PeerProduces();
      chunk := copied[..];
      read := ToInt32(position + length);
      got := got + chunk;
    }

    /** Deliver the next unread bytes, at most one I/O chunk, polling until there are some or the input ends. */
    method ReadClientChunk(wakeups: nat) returns (r: ReadResult, ghost seen: seq<byte>)
      requires Valid() && wakeups > 0
      modifies this, bytes
      ensures Valid() && OutsideUnchanged() && old(sent) <= seen <= sent
      ensures r.Chunk? ==> 0 < |r.bytes| <= IO_CHUNK_BYTES && got == old(got) + r.bytes
      ensures !r.Chunk? ==> got == old(got)
      ensures r.Ended? && Owned() ==> closed
      ensures !r.Chunk? && Owned() ==> got == seen
    {
      r, seen := Waiting, sent;
      for poll := 0 to wakeups
        invariant Valid() && OutsideUnchanged() && old(sent) <= seen <= sent && got == old(got)
        invariant poll > 0 && Owned() ==> got == seen
      {
        r, seen := PollClient();
        if !r.Waiting? { return; }
      }
      r := Waiting;
    }

    /**
     One pass of the writing loop: the claim check, the loads of both counters, and, when there is
     room, as much of `chunk[offset..]` as fits.
     */
    method WritePass(chunk: seq<byte>, offset: nat) returns (r: WriteResult, length: nat)
      requires Valid() && offset < |chunk| && write + |chunk| - offset <= MAX_INT32
      modifies this, bytes
      ensures Valid() && OutsideUnchanged() && old(got) <= got
      ensures offset + length <= |chunk| && sent == old(sent) + chunk[offset..offset + length]
      ensures r.Written? <==> length > 0
      ensures r.Lost? ==> !Owned()
      ensures r.Blocked? ==> |sent| == |old(got)| + ringCap
      ensures Owned() ==> old(Owned())
      ensures !old(Owned()) ==> r.Lost?
      ensures closed == old(closed)
    {
      length := 0;
      PeerConsumes();
      if !Owned() { return Lost, 0; }
      PeerConsumes();
      var w := write;
      PeerConsumes();
      var released := read;
      var free := ringCap - (w - released);
      if free == 0 { return Blocked, 0; }
      length := Min(free, |chunk| - offset);
      StageAndPublish(w, chunk, offset, length);
      r := Written;
    }

    /** Copies a slice of the chunk into free cells and then makes it visible. */
    method StageAndPublish(position: nat, chunk: seq<byte>, offset: nat, length: nat)
      requires Valid() && position == write && length <= ringCap - (write - read)
      requires offset + length <= |chunk| && write + length <= MAX_INT32
      modifies this, bytes
      ensures Valid() && OutsideUnchanged() && old(got) <= got && closed == old(closed) && (Owned() ==> old(Owned()))
      ensures sent == old(sent) + chunk[offset..offset + length]
    {
      CopyRingIn(position, chunk, offset, length);
      PeerConsumes();
      PublishStaged(chunk, offset, length);
    }

    /** Append the chunk to what was sent, or a prefix of it when the claim is lost or the ring stays full. */
    method WriteWorkerChunk(chunk: seq<byte>, wakeups: nat) returns (r: WriteResult)
      requires Valid() && write + |chunk| <= MAX_INT32
      modifies this, bytes
      ensures Valid() && OutsideUnchanged() && old(got) <= got
      ensures r.Written? ==> sent == old(sent) + chunk
      ensures old(sent) <= sent <= old(sent) + chunk
      ensures r.Lost? ==> !Owned()
      ensures r.Blocked? ==> |sent| >= |old(got)| + ringCap
      ensures Owned() ==> old(Owned())
      ensures !old(Owned()) ==> sent == old(sent)
      ensures closed == old(closed)
    {
      var offset, left := 0, wakeups;
      while offset < |chunk|
        invariant Valid() && OutsideUnchanged() && old(got) <= got
        invariant 0 <= offset <= |chunk| && sent == old(sent) + chunk[..offset]
        invariant closed == old(closed) && (Owned() ==> old(Owned())) && (!old(Owned()) ==> offset == 0)
        decreases |chunk| - offset, left
      {
        var length;
        r, length := WritePass(chunk, offset);
        assert chunk[..offset] + chunk[offset..offset + length] == chunk[..offset + length];
        if r.Lost? { return; }
        if r.Blocked? {
          if left == 0 { return; }
          left := left - 1;
        }
        offset := offset + length;
      }
      r := Written;
    }

    /** Advance the write counter over the staged bytes. */
    method PublishStaged(source: seq<byte>, from: nat, n: nat)
      requires Valid() && from + n <= |source| && Staged(source, from, n)
      requires write + n <= read + ringCap && write + n <= MAX_INT32
      modifies this
      ensures Valid() && sent == old(sent) + source[from..from + n]
      ensures got == old(got) && write == old(write) + n && Owned() == old(Owned()) && closed == old(closed)
    {
      ghost var before := View();
      Advance(n);
      forall i | 0 <= i < n
        ensures Pending(before, n)[i] == source[from..from + n][i]
      {
        assert source[from..from + n][i] == source[from + i];
        assert Cell(before, |before.sent| + i) == Wrap(old(write) + (from + i - from), ringCap);
      }
      assert Pending(before, n) == source[from..from + n];
    }

    /** Mark the end of the output, unless the claim is gone. */
    method CloseOutput()
      requires Valid()
      modifies this
      ensures Valid() && old(got) <= got && sent == old(sent) && write == old(write)
      ensures closed == (old(closed) || Owned()) && (Owned() ==> old(Owned()))
    {
      PeerConsumes();
      if claimed { closed := true; }
    }
  }
}
