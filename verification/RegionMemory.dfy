/**
 Every ring of a region over one shared buffer, counters included: all producers and consumers move one memory access
 at a time, in any order, and know only what they load from the buffer.
 */
module RegionMemory {
  import opened Bytes
  import opened Region
  import opened RegionRings
  import P = RingProtocol

  /** What has gone through a ring since its slot was claimed. */
  datatype Log = Log(start: nat, sent: seq<byte>, got: seq<byte>, held: seq<byte>)

  datatype Memory = Memory(bytes: seq<byte>, logs: map<Seat, Log>)

  datatype Access =
    | Scribble(j: nat, b: byte)  // producer stores byte `j` past its counter
    | Publish(n: nat)            // producer stores its counter
    | Copy                       // consumer loads the next unread byte
    | Release                    // consumer stores its counter

  datatype Event =
    | Ring(seat: Seat, access: Access)
    | Mark(slot: nat, word: nat, value: nat)  // a store to a control word that is no counter: state, closed flags

  ghost predicate Sane(r: Region) {
    Accepted(r) && Addressable(r) && Spaced(r)
  }

  // Control words.

  function WordAddress(r: Region, slot: nat, word: nat): int {
    4 * (SlotWord(r, slot) + word)
  }

  /** `C2W_WRITE` or `W2C_WRITE`; the read counter is the word after it. */
  function WriteWord(seat: Seat): nat {
    if seat.side.ClientRing? then 1 else 4
  }

  function ReadWord(seat: Seat): nat {
    WriteWord(seat) + 1
  }

  predicate IsCounter(word: nat) {
    word in {1, 2, 4, 5}
  }

  lemma WordBounds(r: Region, slot: nat, word: nat)
    requires Sane(r) && slot < r.nSlots && word < CONTROL_WORDS
    ensures PartFirst(r, slot, Control) <= WordAddress(r, slot, word)
    ensures WordAddress(r, slot, word) + 4 <= PartEnd(r, slot, Control)
    ensures 0 <= WordAddress(r, slot, word) && WordAddress(r, slot, word) + 4 <= r.byteLength
  {
    SlotAddressable(r, slot);
    hide Addressable, Spaced, Address, Accepted, SlotWord;
    PartInSlot(r, slot, Control);
  }

  ghost function Load(r: Region, bytes: seq<byte>, slot: nat, word: nat): int
    requires Sane(r) && |bytes| == r.byteLength && slot < r.nSlots && word < CONTROL_WORDS
  {
    WordBounds(r, slot, word);
    P.ToInt32(U32(bytes, WordAddress(r, slot, word)))
  }

  /** The four bytes at `a` become the word `v`. */
  function StoreWord(bytes: seq<byte>, a: nat, v: nat): (t: seq<byte>)
    requires a + 4 <= |bytes| && v <= P.MAX_INT32
    ensures |t| == |bytes| && U32(t, a) == v
    ensures forall i :: 0 <= i < |bytes| && !(a <= i < a + 4) ==> t[i] == bytes[i]
  {
    var t := bytes[..a] + PutU32(v) + bytes[a + 4..];
    assert t[a..a + 4] == PutU32(v);
    FieldU32(t, a, v);
    t
  }

  ghost function Store(r: Region, bytes: seq<byte>, slot: nat, word: nat, v: nat): (t: seq<byte>)
    requires Sane(r) && |bytes| == r.byteLength && slot < r.nSlots && word < CONTROL_WORDS && v <= P.MAX_INT32
    ensures |t| == |bytes|
  {
    WordBounds(r, slot, word);
    StoreWord(bytes, WordAddress(r, slot, word), v)
  }

  // One ring of the memory.

  ghost predicate Shaped(r: Region, m: Memory) {
    && Sane(r) && |m.bytes| == r.byteLength
    && forall seat :: seat in m.logs ==> IsSeat(r, seat)
  }

  lemma SeatBounds(r: Region, seat: Seat)
    requires Sane(r) && IsSeat(r, seat)
    ensures 0 <= PartFirst(r, seat.slot, seat.side)
    ensures PartFirst(r, seat.slot, seat.side) + r.ringCap == PartEnd(r, seat.slot, seat.side) <= r.byteLength
    ensures r.ringCap > 0
  {
    SlotAddressable(r, seat.slot);
    PartInSlot(r, seat.slot, seat.side);
  }

  ghost function Cells(r: Region, bytes: seq<byte>, seat: Seat): (c: seq<byte>)
    requires Sane(r) && |bytes| == r.byteLength && IsSeat(r, seat)
    ensures |c| == r.ringCap > 0
  {
    SeatBounds(r, seat);
    bytes[PartFirst(r, seat.slot, seat.side)..PartEnd(r, seat.slot, seat.side)]
  }

  /** The ring of `RingProtocol` that the memory holds at `seat`. */
  ghost function View(r: Region, m: Memory, seat: Seat): P.Ring
    requires Shaped(r, m) && seat in m.logs
  {
    var l := m.logs[seat];
    P.Ring(Cells(r, m.bytes, seat), l.start, l.sent, l.got, l.held)
  }

  ghost function LoadWrite(r: Region, m: Memory, seat: Seat): int
    requires Shaped(r, m) && seat in m.logs
  {
    Load(r, m.bytes, seat.slot, WriteWord(seat))
  }

  ghost function LoadRead(r: Region, m: Memory, seat: Seat): int
    requires Shaped(r, m) && seat in m.logs
  {
    Load(r, m.bytes, seat.slot, ReadWord(seat))
  }

  /** The ring is a queue and its two stored counters measure it. */
  ghost predicate Good(r: Region, m: Memory, seat: Seat)
    requires Shaped(r, m) && seat in m.logs
  {
    var v := View(r, m, seat);
    && P.Queue(v) && v.Write() <= P.MAX_INT32
    && LoadWrite(r, m, seat) == v.Write() && LoadRead(r, m, seat) == v.Read()
  }

  ghost predicate AllGood(r: Region, m: Memory) {
    Shaped(r, m) && forall seat :: seat in m.logs ==> Good(r, m, seat)
  }

  // The machine.

  /** The tests that a party makes, on the counters it loads. */
  ghost predicate Enabled(r: Region, m: Memory, e: Event)
    requires Shaped(r, m)
  {
    match e
    case Mark(slot, word, value) =>
      slot < r.nSlots && word < CONTROL_WORDS && !IsCounter(word) && value <= P.MAX_INT32
    case Ring(seat, access) =>
      && seat in m.logs
      && var (w, d) := (LoadWrite(r, m, seat), LoadRead(r, m, seat));
         && 0 <= d <= w
         && match access
            case Scribble(j, _) => j < r.ringCap - (w - d)
            case Publish(n) => n <= r.ringCap - (w - d) && w + n <= P.MAX_INT32
            case Copy => |m.logs[seat].held| < w - d
            case Release => d + |m.logs[seat].held| <= P.MAX_INT32
  }

  /** The buffer with one ring byte stored. */
  ghost function Poke(r: Region, bytes: seq<byte>, seat: Seat, position: nat, b: byte): (t: seq<byte>)
    requires Sane(r) && |bytes| == r.byteLength && IsSeat(r, seat)
    ensures |t| == |bytes|
  {
    SeatBounds(r, seat);
    bytes[PartFirst(r, seat.slot, seat.side) + P.Wrap(position, r.ringCap) := b]
  }

  /** `n` bytes of a ring from a position on. */
  function Around(cells: seq<byte>, position: nat, n: nat): (s: seq<byte>)
    requires |cells| > 0
    ensures |s| == n
  {
    seq(n, i requires 0 <= i < n => cells[P.Wrap(position + i, |cells|)])
  }

  ghost function RingStep(r: Region, m: Memory, seat: Seat, access: Access): (t: Memory)
    requires Shaped(r, m) && Enabled(r, m, Ring(seat, access))
    ensures |t.bytes| == |m.bytes| && t.logs.Keys == m.logs.Keys
  {
    var (l, w, d) := (m.logs[seat], LoadWrite(r, m, seat), LoadRead(r, m, seat));
    assert IsSeat(r, seat);
    match access
    case Scribble(j, b) => m.(bytes := Poke(r, m.bytes, seat, w + j, b))
    case Publish(n) =>
      Memory(Store(r, m.bytes, seat.slot, WriteWord(seat), w + n),
             m.logs[seat := l.(sent := l.sent + Around(Cells(r, m.bytes, seat), w, n))])
    case Copy => m.(logs := m.logs[seat := l.(held := l.held + Around(Cells(r, m.bytes, seat), d + |l.held|, 1))])
    case Release =>
      Memory(Store(r, m.bytes, seat.slot, ReadWord(seat), d + |l.held|),
             m.logs[seat := l.(got := l.got + l.held, held := [])])
  }

  ghost function Step(r: Region, m: Memory, e: Event): (t: Memory)
    requires Shaped(r, m) && Enabled(r, m, e)
    ensures Shaped(r, t) && t.logs.Keys == m.logs.Keys
  {
    match e
    case Mark(slot, word, value) => m.(bytes := Store(r, m.bytes, slot, word, value))
    case Ring(seat, access) => RingStep(r, m, seat, access)
  }

  // A store to one place leaves the others.

  lemma SameCells(r: Region, a: seq<byte>, b: seq<byte>, seat: Seat)
    requires Sane(r) && |a| == |b| == r.byteLength && IsSeat(r, seat)
    requires forall x :: 0 <= x < |a| && InPart(r, seat.slot, seat.side, x) ==> a[x] == b[x]
    ensures Cells(r, a, seat) == Cells(r, b, seat)
  {
    SeatBounds(r, seat);
    hide Sane, PartFirst;
    var first, end := PartFirst(r, seat.slot, seat.side), PartEnd(r, seat.slot, seat.side);
    forall i | first <= i < end
      ensures a[i] == b[i]
    {
      assert InPart(r, seat.slot, seat.side, i);
    }
    assert a[first..end] == b[first..end];
  }

  lemma SameWord(r: Region, a: seq<byte>, b: seq<byte>, slot: nat, word: nat)
    requires Sane(r) && |a| == |b| == r.byteLength && slot < r.nSlots && word < CONTROL_WORDS
    requires var x := WordAddress(r, slot, word); forall i :: 0 <= i < |a| && x <= i < x + 4 ==> a[i] == b[i]
    ensures Load(r, a, slot, word) == Load(r, b, slot, word)
  {
    WordBounds(r, slot, word);
    hide Sane, WordAddress, PartFirst, P.ToInt32;
  }

  /** Storing a ring byte changes no control word. */
  lemma PokeKeepsWord(r: Region, bytes: seq<byte>, seat: Seat, position: nat, b: byte, slot: nat, word: nat)
    requires Sane(r) && |bytes| == r.byteLength && IsSeat(r, seat) && slot < r.nSlots && word < CONTROL_WORDS
    ensures Load(r, Poke(r, bytes, seat, position, b), slot, word) == Load(r, bytes, slot, word)
  {
    SeatBounds(r, seat);
    PartsApart(r, slot, Control, seat.slot, seat.side);
    WordBounds(r, slot, word);
    hide Sane, WordAddress, PartFirst, Load;
    SameWord(r, bytes, Poke(r, bytes, seat, position, b), slot, word);
  }

  /** Storing a ring byte changes no cell of another ring, and one cell of its own. */
  lemma PokeKeepsCells(r: Region, bytes: seq<byte>, seat: Seat, position: nat, b: byte, other: Seat)
    requires Sane(r) && |bytes| == r.byteLength && IsSeat(r, seat) && IsSeat(r, other)
    ensures Cells(r, Poke(r, bytes, seat, position, b), other)
         == if other == seat then Cells(r, bytes, other)[P.Wrap(position, r.ringCap) := b] else Cells(r, bytes, other)
  {
    SeatBounds(r, seat);
    if other == seat {
      hide Sane, PartFirst;
    } else {
      PartsApart(r, other.slot, other.side, seat.slot, seat.side);
      hide Sane, PartFirst, Cells;
      SameCells(r, bytes, Poke(r, bytes, seat, position, b), other);
    }
  }

  /** Two control words of a region share no byte. */
  lemma WordsApart(r: Region, slot: nat, word: nat, s: nat, w: nat)
    requires Sane(r) && slot < r.nSlots && word < CONTROL_WORDS && s < r.nSlots && w < CONTROL_WORDS
    requires s != slot || w != word
    ensures WordAddress(r, slot, word) + 4 <= WordAddress(r, s, w)
         || WordAddress(r, s, w) + 4 <= WordAddress(r, slot, word)
  {
    if s != slot {
      WordBounds(r, slot, word);
      WordBounds(r, s, w);
      PartsApart(r, s, Control, slot, Control);
      hide Sane, PartFirst, WordAddress;
    } else {
      hide Sane, SlotWord;
    }
  }

  /** Storing a control word changes that word and no other. */
  lemma StoreKeepsWord(r: Region, bytes: seq<byte>, slot: nat, word: nat, v: nat, s: nat, w: nat)
    requires Sane(r) && |bytes| == r.byteLength && slot < r.nSlots && word < CONTROL_WORDS && v <= P.MAX_INT32
    requires s < r.nSlots && w < CONTROL_WORDS
    ensures Load(r, Store(r, bytes, slot, word, v), s, w)
         == if s == slot && w == word then v else Load(r, bytes, s, w)
  {
    WordBounds(r, slot, word);
    WordBounds(r, s, w);
    hide Sane, PartFirst, WordAddress;
    if s != slot || w != word {
      WordsApart(r, slot, word, s, w);
      hide Load;
      SameWord(r, bytes, Store(r, bytes, slot, word, v), s, w);
    }
  }

  /** Storing a control word changes no ring cell. */
  lemma StoreKeepsCells(r: Region, bytes: seq<byte>, slot: nat, word: nat, v: nat, seat: Seat)
    requires Sane(r) && |bytes| == r.byteLength && slot < r.nSlots && word < CONTROL_WORDS && v <= P.MAX_INT32
    requires IsSeat(r, seat)
    ensures Cells(r, Store(r, bytes, slot, word, v), seat) == Cells(r, bytes, seat)
  {
    WordBounds(r, slot, word);
    PartsApart(r, seat.slot, seat.side, slot, Control);
    hide Sane, PartFirst, WordAddress, Cells;
    SameCells(r, bytes, Store(r, bytes, slot, word, v), seat);
  }

  // Each ring runs as if alone.

  /** The move of `RingProtocol` that an access is. */
  function MoveOf(l: Log, access: Access): P.Move {
    match access
    case Scribble(j, b) => P.Scribble(|l.sent| + j, b)
    case Publish(n) => P.Publish(n)
    case Copy => P.Copy
    case Release => P.Release
  }

  /** What a party tests on the stored counters is what the protocol demands of it. */
  lemma AccessIsMove(r: Region, m: Memory, seat: Seat, access: Access)
    requires AllGood(r, m) && Enabled(r, m, Ring(seat, access))
    ensures P.Enabled(View(r, m, seat), MoveOf(m.logs[seat], access))
    ensures View(r, m, seat).Cap() == r.ringCap
  {
    assert Good(r, m, seat);
    hide Sane, LoadWrite, LoadRead, P.Queue, Cells;
  }

  /** The ring at `seat` after an access to it; its counters are what the access stored. */
  ghost predicate Moved(r: Region, m: Memory, seat: Seat, access: Access)
    requires AllGood(r, m) && Enabled(r, m, Ring(seat, access))
  {
    var t := Step(r, m, Ring(seat, access));
    AccessIsMove(r, m, seat, access);
    && View(r, t, seat) == P.Apply(View(r, m, seat), MoveOf(m.logs[seat], access))
    && LoadWrite(r, t, seat) == View(r, t, seat).Write() && LoadRead(r, t, seat) == View(r, t, seat).Read()
  }

  lemma ScribbleMoves(r: Region, m: Memory, seat: Seat, j: nat, b: byte)
    requires AllGood(r, m) && Enabled(r, m, Ring(seat, Scribble(j, b)))
    ensures Moved(r, m, seat, Scribble(j, b))
  {
    hide Sane, Cells, Poke, Load, P.Queue, P.Wrap;
    assert Good(r, m, seat);
    hide AllGood;
    var w := LoadWrite(r, m, seat);
    PokeKeepsCells(r, m.bytes, seat, w + j, b, seat);
    PokeKeepsWord(r, m.bytes, seat, w + j, b, seat.slot, WriteWord(seat));
    PokeKeepsWord(r, m.bytes, seat, w + j, b, seat.slot, ReadWord(seat));
  }

  lemma AroundIsPending(s: P.Ring, n: nat)
    requires s.Cap() > 0
    ensures Around(s.cells, s.Write(), n) == P.Pending(s, n)
  {
    var a, b := Around(s.cells, s.Write(), n), P.Pending(s, n);
    forall i | 0 <= i < n
      ensures a[i] == b[i]
    {
      assert s.Write() + i == s.start + (|s.sent| + i);
      assert a[i] == s.cells[P.Wrap(s.Write() + i, |s.cells|)];
      assert b[i] == s.cells[P.Cell(s, |s.sent| + i)];
    }
  }

  lemma PublishMoves(r: Region, m: Memory, seat: Seat, n: nat)
    requires AllGood(r, m) && Enabled(r, m, Ring(seat, Publish(n)))
    ensures Moved(r, m, seat, Publish(n))
  {
    hide Sane, Cells, Store, Load, P.Queue, P.Wrap, P.Pending, Around;
    assert Good(r, m, seat);
    hide AllGood;
    var w := LoadWrite(r, m, seat);
    StoreKeepsCells(r, m.bytes, seat.slot, WriteWord(seat), w + n, seat);
    StoreKeepsWord(r, m.bytes, seat.slot, WriteWord(seat), w + n, seat.slot, WriteWord(seat));
    StoreKeepsWord(r, m.bytes, seat.slot, WriteWord(seat), w + n, seat.slot, ReadWord(seat));
    AroundIsPending(View(r, m, seat), n);
  }

  lemma CopyMoves(r: Region, m: Memory, seat: Seat)
    requires AllGood(r, m) && Enabled(r, m, Ring(seat, Copy))
    ensures Moved(r, m, seat, Copy)
  {
    hide Sane, Cells, Load, P.Queue, P.Wrap;
    assert Good(r, m, seat);
    hide AllGood;
    var v := View(r, m, seat);
    assert Around(v.cells, v.Read() + |v.held|, 1) == [v.cells[P.Cell(v, |v.got| + |v.held|)]];
  }

  lemma ReleaseMoves(r: Region, m: Memory, seat: Seat)
    requires AllGood(r, m) && Enabled(r, m, Ring(seat, Release))
    ensures Moved(r, m, seat, Release)
  {
    hide Sane, Cells, Store, Load, P.Queue, P.Wrap;
    assert Good(r, m, seat);
    hide AllGood;
    var d := LoadRead(r, m, seat) + |m.logs[seat].held|;
    StoreKeepsCells(r, m.bytes, seat.slot, ReadWord(seat), d, seat);
    StoreKeepsWord(r, m.bytes, seat.slot, ReadWord(seat), d, seat.slot, WriteWord(seat));
    StoreKeepsWord(r, m.bytes, seat.slot, ReadWord(seat), d, seat.slot, ReadWord(seat));
  }

  lemma AccessMoves(r: Region, m: Memory, seat: Seat, access: Access)
    requires AllGood(r, m) && Enabled(r, m, Ring(seat, access))
    ensures Moved(r, m, seat, access)
  {
    hide AllGood, Moved, Enabled;
    match access
    case Scribble(j, b) => ScribbleMoves(r, m, seat, j, b);
    case Publish(n) => PublishMoves(r, m, seat, n);
    case Copy => CopyMoves(r, m, seat);
    case Release => ReleaseMoves(r, m, seat);
  }

  /** The ring at `seat` and its counters are as they were. */
  ghost predicate Untouched(r: Region, m: Memory, t: Memory, seat: Seat)
    requires Shaped(r, m) && Shaped(r, t) && seat in m.logs && seat in t.logs
  {
    && View(r, t, seat) == View(r, m, seat)
    && LoadWrite(r, t, seat) == LoadWrite(r, m, seat) && LoadRead(r, t, seat) == LoadRead(r, m, seat)
  }

  /** A store to a control word leaves every ring that does not count in it. */
  lemma StoreUntouched(r: Region, m: Memory, t: Memory, slot: nat, word: nat, v: nat, seat: Seat)
    requires Shaped(r, m) && Shaped(r, t) && seat in m.logs && seat in t.logs && m.logs[seat] == t.logs[seat]
    requires slot < r.nSlots && word < CONTROL_WORDS && v <= P.MAX_INT32
    requires slot != seat.slot || (word != WriteWord(seat) && word != ReadWord(seat))
    requires t.bytes == Store(r, m.bytes, slot, word, v)
    ensures Untouched(r, m, t, seat)
  {
    StoreKeepsCells(r, m.bytes, slot, word, v, seat);
    StoreKeepsWord(r, m.bytes, slot, word, v, seat.slot, WriteWord(seat));
    StoreKeepsWord(r, m.bytes, slot, word, v, seat.slot, ReadWord(seat));
    hide Sane, Cells, Store, Load;
  }

  lemma OthersUntouched(r: Region, m: Memory, e: Event, seat: Seat)
    requires Shaped(r, m) && Enabled(r, m, e) && seat in m.logs && (e.Ring? ==> e.seat != seat)
    ensures Untouched(r, m, Step(r, m, e), seat)
  {
    hide Sane, Cells, Store, Poke, Load, P.Wrap, Around;
    var t := Step(r, m, e);
    if e.Mark? {
      StoreUntouched(r, m, t, e.slot, e.word, e.value, seat);
    } else {
      var (w, d) := (LoadWrite(r, m, e.seat), LoadRead(r, m, e.seat));
      match e.access {
        case Scribble(j, b) =>
          PokeKeepsCells(r, m.bytes, e.seat, w + j, b, seat);
          PokeKeepsWord(r, m.bytes, e.seat, w + j, b, seat.slot, WriteWord(seat));
          PokeKeepsWord(r, m.bytes, e.seat, w + j, b, seat.slot, ReadWord(seat));
        case Publish(n) =>
          StoreUntouched(r, m, t, e.seat.slot, WriteWord(e.seat), w + n, seat);
        case Copy =>
        case Release =>
          StoreUntouched(r, m, t, e.seat.slot, ReadWord(e.seat), d + |m.logs[e.seat].held|, seat);
      }
    }
  }

  /** One access of any party keeps every ring of the region a queue with right counters. */
  lemma StepGood(r: Region, m: Memory, e: Event)
    requires AllGood(r, m) && Enabled(r, m, e)
    ensures AllGood(r, Step(r, m, e))
  {
    var t := Step(r, m, e);
    forall seat | seat in t.logs
      ensures Good(r, t, seat)
    {
      assert Good(r, m, seat);
      if e.Ring? && e.seat == seat {
        AccessIsMove(r, m, seat, e.access);
        AccessMoves(r, m, seat, e.access);
        P.MoveSafe(View(r, m, seat), MoveOf(m.logs[seat], e.access));
        hide Sane, View, P.Apply, Step, P.Queue;
      } else {
        OthersUntouched(r, m, e, seat);
        hide Sane, View, Step;
      }
    }
  }

  ghost predicate Legal(r: Region, m: Memory, es: seq<Event>)
    requires Shaped(r, m)
    decreases |es|
  {
    es == [] || (Enabled(r, m, es[0]) && Legal(r, Step(r, m, es[0]), es[1..]))
  }

  ghost function Run(r: Region, m: Memory, es: seq<Event>): (t: Memory)
    requires Shaped(r, m) && Legal(r, m, es)
    ensures Shaped(r, t) && t.logs.Keys == m.logs.Keys
    decreases |es|
  {
    if es == [] then m else Run(r, Step(r, m, es[0]), es[1..])
  }

  /** What the run does to one ring, as moves of `RingProtocol`. */
  ghost function Projected(r: Region, m: Memory, es: seq<Event>, seat: Seat): seq<P.Move>
    requires Shaped(r, m) && Legal(r, m, es) && seat in m.logs
    decreases |es|
  {
    if es == [] then []
    else
      var rest := Projected(r, Step(r, m, es[0]), es[1..], seat);
      if es[0].Ring? && es[0].seat == seat then [MoveOf(m.logs[seat], es[0].access)] + rest else rest
  }

  /** Over every interleaving each ring of the region goes through a legal run of its own, as if it were alone. */
  lemma {:induction false} RunProjects(r: Region, m: Memory, es: seq<Event>, seat: Seat)
    requires AllGood(r, m) && Legal(r, m, es) && seat in m.logs
    ensures AllGood(r, Run(r, m, es))
    ensures var moves := Projected(r, m, es, seat);
            && P.Legal(View(r, m, seat), moves)
            && P.Run(View(r, m, seat), moves) == View(r, Run(r, m, es), seat)
    decreases |es|
  {
    if es == [] {
    } else {
      var t := Step(r, m, es[0]);
      StepGood(r, m, es[0]);
      RunProjects(r, t, es[1..], seat);
      if es[0].Ring? && es[0].seat == seat {
        AccessIsMove(r, m, seat, es[0].access);
        AccessMoves(r, m, seat, es[0].access);
        var move, rest := MoveOf(m.logs[seat], es[0].access), Projected(r, t, es[1..], seat);
        assert ([move] + rest)[1..] == rest;
        hide Sane, View, Step, Enabled, P.Apply, P.Enabled;
      } else {
        OthersUntouched(r, m, es[0], seat);
        hide Sane, View, Step, Enabled;
      }
    }
  }

  /** Any number of claimed slots, each counter word holding its ring's start. */
  ghost predicate JustClaimed(r: Region, m: Memory) {
    && Shaped(r, m)
    && forall seat :: seat in m.logs ==>
         && var l := m.logs[seat];
            l == Log(l.start, [], [], []) && LoadWrite(r, m, seat) == LoadRead(r, m, seat) == l.start
  }

  lemma ClaimedGood(r: Region, m: Memory)
    requires JustClaimed(r, m)
    ensures AllGood(r, m)
  {
    hide Sane, Cells;
  }

  /**
   What was delivered is a prefix of what was written, the counters in the buffer measure the fill, and every unread
   byte is in its cell of the buffer.
   */
  ghost predicate HoldsQueue(r: Region, t: Memory, seat: Seat)
    requires Shaped(r, t) && seat in t.logs
  {
    var l := t.logs[seat];
    && l.got + l.held <= l.sent
    && LoadWrite(r, t, seat) - LoadRead(r, t, seat) == |l.sent| - |l.got| <= r.ringCap
    && forall k {:trigger l.sent[k]} :: |l.got| <= k < |l.sent| ==>
         Cells(r, t.bytes, seat)[P.Wrap(l.start + k, r.ringCap)] == l.sent[k]
  }

  lemma GoodHoldsQueue(r: Region, t: Memory, seat: Seat)
    requires AllGood(r, t) && seat in t.logs
    ensures HoldsQueue(r, t, seat)
  {
    hide Sane, Cells, LoadWrite, LoadRead, P.Wrap;
    assert Good(r, t, seat);
    hide AllGood;
  }

  /** Over every interleaving of all parties of a region, from any claims, each ring of the buffer is a queue. */
  lemma RegionRefinesQueues(r: Region, m: Memory, es: seq<Event>, seat: Seat)
    requires JustClaimed(r, m) && Legal(r, m, es) && seat in m.logs
    ensures HoldsQueue(r, Run(r, m, es), seat)
  {
    assert Shaped(r, m);
    hide JustClaimed, AllGood, HoldsQueue, View, Legal, Run, P.Run, P.Legal, Projected;
    ClaimedGood(r, m);
    RunProjects(r, m, es, seat);
    GoodHoldsQueue(r, Run(r, m, es), seat);
  }
}
