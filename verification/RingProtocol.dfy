/**
 One single-producer/single-consumer byte ring of a claimed slot, as a step relation.

 Counters are never reduced modulo the capacity: byte number `k` of the claim lives in cell
 `(start + k) % cap`, where `start` is the common value of both counters when the slot was claimed.
 Producer and consumer move one memory access at a time, in any order.
 */
module RingProtocol {
  import opened Bytes

  /**
   `sent` is every byte published by the producer, `got` every byte released by the consumer, and
   `held` the bytes the consumer has copied out but not yet released.
   */
  datatype Ring = Ring(cells: seq<byte>, start: nat, sent: seq<byte>, got: seq<byte>, held: seq<byte>) {
    function Cap(): nat { |cells| }

    function Write(): nat { start + |sent| }

    function Read(): nat { start + |got| }
  }

  datatype Move =
    | Scribble(k: nat, b: byte)  // producer stores one byte past the published end
    | Publish(n: nat)            // producer advances its counter
    | Copy                       // consumer loads the next unread byte
    | Release                    // consumer advances its counter over what it copied

  /** The remainder, by repeated subtraction. */
  function Wrap(p: nat, cap: nat): (r: nat)
    requires 0 < cap
    ensures r < cap
  {
    if p < cap then p else Wrap(p - cap, cap)
  }

  function Cell(s: Ring, k: nat): nat
    requires s.Cap() > 0
  {
    Wrap(s.start + k, s.Cap())
  }

  /** The rules a party keeps: write only free cells, never publish past the free space, copy only published bytes. */
  predicate Enabled(s: Ring, m: Move) {
    match m
    case Scribble(k, b) => |s.sent| <= k < |s.got| + s.Cap()
    case Publish(n) => |s.sent| + n <= |s.got| + s.Cap()
    case Copy => |s.got| + |s.held| < |s.sent|
    case Release => true
  }

  function Pending(s: Ring, n: nat): (p: seq<byte>)
    requires s.Cap() > 0
    ensures |p| == n
  {
    seq(n, j requires 0 <= j < n => s.cells[Cell(s, |s.sent| + j)])
  }

  function Apply(s: Ring, m: Move): Ring
    requires s.Cap() > 0 && Enabled(s, m)
  {
    match m
    case Scribble(k, b) => s.(cells := s.cells[Cell(s, k) := b])
    case Publish(n) => s.(sent := s.sent + Pending(s, n))
    case Copy => s.(held := s.held + [s.cells[Cell(s, |s.got| + |s.held|)]])
    case Release => s.(got := s.got + s.held, held := [])
  }

  /** The ring is a byte queue: bounded, first in first out, with every unread byte still in its cell. */
  predicate Queue(s: Ring) {
    && s.Cap() > 0
    && s.got + s.held <= s.sent
    && |s.sent| <= |s.got| + s.Cap()
    && forall k {:trigger s.sent[k]} :: |s.got| <= k < |s.sent| ==> s.cells[Cell(s, k)] == s.sent[k]
  }

  function Claimed(cells: seq<byte>, start: nat): (s: Ring) {
    Ring(cells, start, [], [], [])
  }

  lemma {:induction false} WrapIsRemainder(p: nat, cap: nat)
    requires 0 < cap
    ensures Wrap(p, cap) == p % cap
  {
    if p < cap {
    } else {
      WrapIsRemainder(p - cap, cap);
      RemainderStep(p, cap);
    }
  }

  lemma RemainderStep(p: nat, cap: nat)
    requires 0 < cap <= p
    ensures p % cap == (p - cap) % cap
  {
    var d := p / cap - (p - cap) / cap - 1;
    assert cap * d == (p - cap) % cap - p % cap;
    assert d >= 1 ==> cap * d >= cap;
    assert d <= -1 ==> cap * d + cap <= 0;
  }

  /** Moving `d` cells on from a cell wraps at most once. */
  lemma {:induction false} CellAfter(i: nat, d: nat, cap: nat)
    requires 0 < cap && d <= cap
    ensures Wrap(i + d, cap) == if Wrap(i, cap) + d < cap then Wrap(i, cap) + d else Wrap(i, cap) + d - cap
  {
    if i < cap {
    } else {
      CellAfter(i - cap, d, cap);
    }
  }

  /** Two indices less than a capacity apart never share a cell, across the wrap too. */
  lemma CellsDistinct(i: nat, j: nat, cap: nat)
    requires i < j < i + cap
    ensures Wrap(i, cap) != Wrap(j, cap)
  {
    CellAfter(i, j - i, cap);
  }

  lemma ScribbleSafe(s: Ring, k: nat, b: byte)
    requires Queue(s) && Enabled(s, Scribble(k, b))
    ensures var t := Apply(s, Scribble(k, b));
            Queue(t) && forall i {:trigger s.sent[i]} :: |s.got| <= i < |s.sent| ==> t.cells[Cell(s, i)] == s.sent[i]
  {
    var t := Apply(s, Scribble(k, b));
    forall i {:trigger s.sent[i]} | |s.got| <= i < |s.sent|
      ensures t.cells[Cell(s, i)] == s.sent[i]
    {
      CellsDistinct(s.start + i, s.start + k, s.Cap());
    }
  }

  lemma PublishSafe(s: Ring, n: nat)
    requires Queue(s) && Enabled(s, Publish(n))
    ensures Queue(Apply(s, Publish(n)))
  {
    var t := Apply(s, Publish(n));
    forall k {:trigger t.sent[k]} | |t.got| <= k < |t.sent|
      ensures t.cells[Cell(t, k)] == t.sent[k]
    {
      if k >= |s.sent| {
        var j := k - |s.sent|;
        assert t.sent[k] == Pending(s, n)[j] == s.cells[Cell(s, |s.sent| + j)];
      } else {
        assert t.sent[k] == s.sent[k];
      }
    }
  }

  lemma CopySafe(s: Ring)
    requires Queue(s) && Enabled(s, Copy)
    ensures Queue(Apply(s, Copy))
  {
    var t, k := Apply(s, Copy), |s.got| + |s.held|;
    assert s.cells[Cell(s, k)] == s.sent[k];
    assert t.got + t.held == s.got + s.held + [s.sent[k]];
  }

  /** One move of either party keeps the queue, never touches an unread byte and never rewrites history. */
  lemma MoveSafe(s: Ring, m: Move)
    requires Queue(s) && Enabled(s, m)
    ensures var t := Apply(s, m);
            && Queue(t) && s.sent <= t.sent && s.got <= t.got
            && t.start == s.start && t.Cap() == s.Cap()
            && forall i {:trigger s.sent[i]} :: |t.got| <= i < |s.sent| ==> t.cells[Cell(s, i)] == s.sent[i]
  {
    match m
    case Scribble(k, b) => ScribbleSafe(s, k, b);
    case Publish(n) => PublishSafe(s, n);
    case Copy => CopySafe(s);
    case Release =>
  }

  predicate Legal(s: Ring, moves: seq<Move>)
    decreases |moves|
  {
    moves == [] || (s.Cap() > 0 && Enabled(s, moves[0]) && Legal(Apply(s, moves[0]), moves[1..]))
  }

  function Run(s: Ring, moves: seq<Move>): Ring
    requires Legal(s, moves)
    decreases |moves|
  {
    if moves == [] then s else Run(Apply(s, moves[0]), moves[1..])
  }

  lemma {:induction false} RunSafe(s: Ring, moves: seq<Move>)
    requires Queue(s) && Legal(s, moves)
    ensures Queue(Run(s, moves))
    ensures s.sent <= Run(s, moves).sent && s.got <= Run(s, moves).got
    ensures Run(s, moves).start == s.start && Run(s, moves).Cap() == s.Cap()
    decreases |moves|
  {
    if moves == [] {
    } else {
      MoveSafe(s, moves[0]);
      RunSafe(Apply(s, moves[0]), moves[1..]);
    }
  }

  /** Every interleaving from a fresh claim: bounded fill, and what was delivered is a prefix of what was written. */
  lemma RingRefinesQueue(cells: seq<byte>, start: nat, moves: seq<Move>)
    requires |cells| > 0 && Legal(Claimed(cells, start), moves)
    ensures var s := Run(Claimed(cells, start), moves);
            && s.Cap() == |cells| && 0 <= s.Write() - s.Read() <= |cells|
            && s.got + s.held <= s.sent
            && forall k {:trigger s.sent[k]} :: |s.got| <= k < |s.sent| ==> s.cells[(start + k) % |cells|] == s.sent[k]
  {
    RunSafe(Claimed(cells, start), moves);
    var s := Run(Claimed(cells, start), moves);
    forall k {:trigger s.sent[k]} | |s.got| <= k < |s.sent|
      ensures s.cells[(start + k) % |cells|] == s.sent[k]
    {
      WrapIsRemainder(start + k, |cells|);
    }
  }

  // Int32 counters.

  const MAX_INT32: int := 0x7FFF_FFFF

  /** What `Atomics.store` on an `Int32Array` keeps of a number. */
  function ToInt32(n: int): (r: int)
    ensures -0x8000_0000 <= r <= MAX_INT32
  {
    var m := n % 0x1_0000_0000;
    if m >= 0x8000_0000 then m - 0x1_0000_0000 else m
  }

  function Epoch(n: nat): nat {
    (n + 0x8000_0000) / 0x1_0000_0000
  }

  lemma EpochBounds(n: nat)
    ensures ToInt32(n) == n - 0x1_0000_0000 * Epoch(n)
    ensures 0x1_0000_0000 * Epoch(n) <= n + 0x8000_0000 < 0x1_0000_0000 * Epoch(n) + 0x1_0000_0000
  {
  }

  /**
   The stored counters still measure the fill exactly when both lie in the same 2^32 block; a claim
   whose traffic carries only the write counter over 2^31 reads as empty.
   */
  lemma FillExactlyWithinEpoch(write: nat, read: nat)
    requires read <= write
    ensures ToInt32(write) - ToInt32(read) == write - read <==> Epoch(write) == Epoch(read)
    ensures write - read < 0x1_0000_0000 && Epoch(write) != Epoch(read) ==> ToInt32(write) - ToInt32(read) < 0
  {
    hide ToInt32, Epoch;
    EpochBounds(write);
    EpochBounds(read);
  }

  /** JavaScript's remainder, which takes the sign of its dividend. */
  function JsRem(a: int, m: nat): int
    requires 0 < m
  {
    if a >= 0 then a % m else -(-a % m)
  }

  /** The cell computed from the stored counter is the cell of the position it stands for. */
  predicate CellRight(p: nat, cap: nat)
    requires 0 < cap
  {
    JsRem(ToInt32(p), cap) == p % cap
  }

  lemma RemainderUnique(x: int, q: int, r: int, cap: nat)
    requires 0 <= r < cap && x == cap * q + r
    ensures x % cap == r
  {
    var d := x / cap - q;
    assert cap * d == r - x % cap;
    assert d >= 1 ==> cap * d >= cap;
    assert d <= -1 ==> cap * d + cap <= 0;
  }

  /** Taking `x` away keeps the remainder exactly when `x` is a multiple. */
  lemma RemainderKept(p: int, x: int, cap: nat)
    requires 0 < cap
    ensures (p - x) % cap == p % cap <==> x % cap == 0
  {
    var q, r := p / cap, p % cap;
    if x % cap == 0 {
      assert p - x == cap * (q - x / cap) + r;
      RemainderUnique(p - x, q - x / cap, r, cap);
    }
    if (p - x) % cap == r {
      assert x == cap * (q - (p - x) / cap) + 0;
      RemainderUnique(x, q - (p - x) / cap, 0, cap);
    }
  }

  /**
   The stored counter finds the right cell exactly when, being negative, both it and its position are multiples of
   the capacity, or, being positive, the 2^32 blocks it has dropped are.
   */
  lemma CellExactly(p: nat, cap: nat)
    requires 0 < cap
    ensures CellRight(p, cap)
       <==> if ToInt32(p) < 0 then -ToInt32(p) % cap == 0 && p % cap == 0 else 0x1_0000_0000 * Epoch(p) % cap == 0
  {
    EpochBounds(p);
    if ToInt32(p) >= 0 { RemainderKept(p, 0x1_0000_0000 * Epoch(p), cap); }
  }

  /** What a transfer reads off the stored counters: the fill, and a cell for each counter. */
  predicate CountersRight(write: nat, read: nat, cap: nat)
    requires 0 < cap
  {
    ToInt32(write) - ToInt32(read) == write - read && CellRight(write, cap) && CellRight(read, cap)
  }

  /**
   A claim whose counters run from `start` to `end` reads its counters rightly at every fill the ring may have exactly
   when `end` is below 2^31.
   */
  lemma CountersExactlyBelow(start: nat, end: nat, cap: nat)
    requires 0 < cap && start <= end && start <= MAX_INT32
    ensures (forall w: nat, r: nat :: start <= r <= w <= end && w - r <= cap ==> CountersRight(w, r, cap))
       <==> end <= MAX_INT32
  {
    if end > MAX_INT32 {
      FillExactlyWithinEpoch(MAX_INT32 + 1, MAX_INT32);
      assert !CountersRight(MAX_INT32 + 1, MAX_INT32, cap);
    }
  }

  /** Counters in one 2^32 block that measure the fill and still point before the ring. */
  lemma SameBlockWrongCell()
    ensures var write, read, cap := 0x8000_0001, 0x8000_0000, 3;
            && Epoch(write) == Epoch(read) && ToInt32(write) - ToInt32(read) == write - read
            && JsRem(ToInt32(read), cap) < 0 && !CellRight(read, cap)
  {
  }
}
