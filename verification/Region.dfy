/** The slotted region of the shared buffer: what the adapter accepts, and where its slots then lie. */
module Region {
  import opened Bytes
  import opened HttpiSyntax
  import opened RingProtocol

  const MAGIC: int := 0x42534756
  const VERSION: int := 1
  const HEADER_BYTES: int := 64
  const SLOT_CONTROL_BYTES: int := 64
  const MAX_SAFE_INTEGER: int := 0x1F_FFFF_FFFF_FFFF

  datatype Protocol = Raw | Httpi

  datatype Region = Region(
    endpointId: seq<byte>, protocol: Protocol,
    base: nat, nSlots: nat, ringCap: nat, stride: nat, slotsOffset: nat, byteLength: nat)

  datatype RegionError = BadTarget | BadOffset | NotWords | OutOfRange | BadHeader

  /** The endpoint and protocol a canonical target names. */
  function ParseTarget(target: seq<byte>): Option<(seq<byte>, Protocol)> {
    if Ascii("iroh://") <= target && IsEndpointId(target[7..]) then Some((target[7..], Raw))
    else if Ascii("httpi://") <= target && |target| >= 72 && IsEndpointId(target[8..72])
            && (|target| == 72 || (target[72] == SLASH && IsSegments(target[73..]))) then
      Some((target[8..72], Httpi))
    else None
  }

  const RAW_SCHEME: seq<byte> := Ascii("iroh://")
  const HTTPI_SCHEME: seq<byte> := Ascii("httpi://")

  /** `target` is a scheme, an endpoint and, for the HTTP one, a path. */
  predicate Names(target: seq<byte>, endpointId: seq<byte>, protocol: Protocol) {
    && IsEndpointId(endpointId)
    && match protocol
       case Raw => target == RAW_SCHEME + endpointId
       case Httpi =>
         && HTTPI_SCHEME + endpointId <= target
         && var path := target[|HTTPI_SCHEME + endpointId|..];
            path == [] || (path[0] == SLASH && IsSegments(path[1..]))
  }

  /** Exactly the texts of the two schemes are targets, and each gives its own protocol and endpoint. */
  lemma ParseTargetExactly(target: seq<byte>, endpointId: seq<byte>, protocol: Protocol)
    ensures ParseTarget(target) == Some((endpointId, protocol)) <==> Names(target, endpointId, protocol)
  {
    hide IsSegments;
    if Names(target, endpointId, protocol) {
      if protocol.Raw? {
        assert target[..7] == RAW_SCHEME && target[7..] == endpointId;
      } else {
        assert target[..8] == HTTPI_SCHEME && target[8..72] == endpointId && |endpointId| == 64;
        assert target[0] != RAW_SCHEME[0];
      }
    }
    if ParseTarget(target) == Some((endpointId, protocol)) {
      if protocol.Raw? {
        assert target == target[..7] + target[7..];
      } else {
        assert target[..72] == target[..8] + target[8..72];
      }
    }
  }

  /** `x >> 2`, on the low 32 bits. */
  function Shr2(x: int): int {
    ToInt32(x) / 4
  }

  /** `x << 2`, on the low 32 bits. */
  function Shl2(x: int): int {
    ToInt32(4 * x)
  }

  /** `words` is the whole shared buffer read as Int32 words; a buffer of another length cannot be read so. */
  function ParseRegion(target: seq<byte>, offset: int, words: seq<int>, byteLength: nat)
    : (r: Result<Region, RegionError>)
    requires |words| == byteLength / 4
    ensures r.Ok? ==> Accepted(r.value)
  {
    match ParseTarget(target)
    case None => Err(BadTarget)
    case Some((endpointId, protocol)) =>
      if offset < 0 || offset > MAX_SAFE_INTEGER || offset % 4 != 0 then Err(BadOffset)
      else if byteLength % 4 != 0 then Err(NotWords)
      else
        var header := Shr2(offset);
        if header < 0 || header + 5 >= |words| then Err(OutOfRange)
        else
          var nSlots, ringCap := words[header + 2], words[header + 3];
          var stride, slotsOffset := words[header + 4], words[header + 5];
          if words[header] != MAGIC || words[header + 1] != VERSION
             || nSlots <= 0 || nSlots > 1024 || ringCap <= 0
             || stride < SLOT_CONTROL_BYTES + ringCap * 2
             || slotsOffset < HEADER_BYTES
             || offset + slotsOffset + nSlots * stride > byteLength then Err(BadHeader)
          else Ok(Region(endpointId, protocol, offset, nSlots, ringCap, stride, slotsOffset, byteLength))
  }

  /** What acceptance establishes about the numbers. */
  predicate Accepted(r: Region) {
    && IsEndpointId(r.endpointId)
    && r.base % 4 == 0 && 0 < r.nSlots <= 1024 && 0 < r.ringCap
    && r.stride >= SLOT_CONTROL_BYTES + r.ringCap * 2
    && r.slotsOffset >= HEADER_BYTES
    && r.base + r.slotsOffset + r.nSlots * r.stride <= r.byteLength
  }

  /** The six header words of a region, and the numbers they must hold. */
  predicate GoodHeader(words: seq<int>, h: nat, offset: nat, byteLength: nat)
    requires h + 6 <= |words|
  {
    && words[h] == 0x42534756 && words[h + 1] == 1
    && 1 <= words[h + 2] <= 1024 && 1 <= words[h + 3]
    && words[h + 4] >= 64 + 2 * words[h + 3] && words[h + 5] >= 64
    && offset + words[h + 5] + words[h + 2] * words[h + 4] <= byteLength
  }

  /**
   Exactly the regions with a good target, an aligned offset, and a good header where the shifted offset points are
   accepted, and with the numbers of that header.
   */
  lemma ParseRegionExactly(target: seq<byte>, offset: int, words: seq<int>, byteLength: nat)
    requires |words| == byteLength / 4
    ensures var r, h := ParseRegion(target, offset, words, byteLength), Shr2(offset);
            && (r.Ok? <==>
                  && ParseTarget(target).Some?
                  && 0 <= offset <= 0x1F_FFFF_FFFF_FFFF && offset % 4 == 0 && byteLength % 4 == 0
                  && 0 <= h && h + 6 <= |words| && GoodHeader(words, h, offset, byteLength))
            && (r.Ok? ==>
                  && ParseTarget(target) == Some((r.value.endpointId, r.value.protocol))
                  && r.value.base == offset && r.value.byteLength == byteLength
                  && r.value.nSlots == words[h + 2] && r.value.ringCap == words[h + 3]
                  && r.value.stride == words[h + 4] && r.value.slotsOffset == words[h + 5])
  {
    hide ParseTarget, IsEndpointId, Shr2;
  }

  // Where slot `slot` lies.

  function Address(r: Region, slot: nat): nat {
    r.base + r.slotsOffset + slot * r.stride
  }

  function SlotWord(r: Region, slot: nat): int {
    Shr2(Address(r, slot))
  }

  function DataOffset(r: Region, slot: nat): int {
    Shl2(SlotWord(r, slot)) + SLOT_CONTROL_BYTES
  }

  /** First byte of the control block; the two rings follow it. */
  function First(r: Region, slot: nat): int {
    4 * SlotWord(r, slot)
  }

  function End(r: Region, slot: nat): int {
    First(r, slot) + SLOT_CONTROL_BYTES + 2 * r.ringCap
  }

  /** The slot's control words are where the layout puts them exactly when the address fits 31 bits. */
  lemma SlotWordExactly(r: Region, slot: nat)
    ensures SlotWord(r, slot) == Address(r, slot) / 4 <==> Address(r, slot) < 0x8000_0000
    ensures Address(r, slot) < 0x8000_0000 ==>
              && First(r, slot) == Address(r, slot) - Address(r, slot) % 4
              && DataOffset(r, slot) == First(r, slot) + SLOT_CONTROL_BYTES
  {
    var a := Address(r, slot);
    if a >= 0x8000_0000 { assert ToInt32(a) < 0x8000_0000; }
  }

  lemma {:induction false} TimesMonotone(a: nat, b: nat, k: nat)
    requires a < b
    ensures a * k + k <= b * k
    decreases b
  {
    assert b * k == (b - 1) * k + k;
    if a >= b - 1 {
    } else {
      TimesMonotone(a, b - 1, k);
    }
  }

  lemma SlotFits(r: Region, slot: nat)
    requires Accepted(r) && slot < r.nSlots
    ensures Address(r, slot) + r.stride <= r.byteLength
  {
    TimesMonotone(slot, r.nSlots, r.stride);
  }

  /** Control words and both rings of every slot stay past the region header and inside the buffer, aligned or not. */
  lemma SlotInBounds(r: Region, slot: nat)
    requires Accepted(r) && slot < r.nSlots && Address(r, slot) < 0x8000_0000
    ensures r.base + HEADER_BYTES <= First(r, slot)
    ensures DataOffset(r, slot) == First(r, slot) + SLOT_CONTROL_BYTES
    ensures DataOffset(r, slot) + 2 * r.ringCap == End(r, slot) <= r.byteLength
  {
    SlotFits(r, slot);
    SlotWordExactly(r, slot);
    assert slot * r.stride >= 0;
    RoundedDown(Address(r, slot), r.base + HEADER_BYTES);
  }

  lemma RoundedDown(a: nat, least: nat)
    requires least % 4 == 0 && least <= a
    ensures least <= a - a % 4
  {
  }

  /** Every slot starts below 2^31, where the 32-bit shifts are exact. */
  predicate Addressable(r: Region) {
    r.nSlots > 0 && Address(r, r.nSlots - 1) < 0x8000_0000
  }

  lemma SlotAddressable(r: Region, slot: nat)
    requires Addressable(r) && slot < r.nSlots
    ensures Address(r, slot) < 0x8000_0000
  {
    if slot < r.nSlots - 1 { TimesMonotone(slot, r.nSlots - 1, r.stride); }
  }

  // What the adapter and its peer store into.

  datatype Part = Control | ClientRing | WorkerRing

  function PartFirst(r: Region, slot: nat, p: Part): int {
    match p
    case Control => First(r, slot)
    case ClientRing => DataOffset(r, slot)
    case WorkerRing => DataOffset(r, slot) + r.ringCap
  }

  function PartEnd(r: Region, slot: nat, p: Part): int {
    PartFirst(r, slot, p) + if p.Control? then SLOT_CONTROL_BYTES else r.ringCap
  }

  predicate InPart(r: Region, slot: nat, p: Part, address: int) {
    PartFirst(r, slot, p) <= address < PartEnd(r, slot, p)
  }

  const CONTROL_WORDS: nat := 16

  /** Every control word of a slot lies in its control part, and two of them never share a byte. */
  lemma WordsInControl(r: Region, slot: nat, word: nat, other: nat, x: int)
    requires word < CONTROL_WORDS && other < CONTROL_WORDS
    requires 4 * (SlotWord(r, slot) + word) <= x < 4 * (SlotWord(r, slot) + word) + 4
    ensures InPart(r, slot, Control, x)
    ensures 4 * (SlotWord(r, slot) + other) <= x < 4 * (SlotWord(r, slot) + other) + 4 <==> other == word
  {
  }

  lemma PartInSlot(r: Region, slot: nat, p: Part)
    requires Accepted(r) && slot < r.nSlots && Address(r, slot) < 0x8000_0000
    ensures First(r, slot) <= PartFirst(r, slot, p) < PartEnd(r, slot, p) <= End(r, slot)
    ensures r.base + HEADER_BYTES <= PartFirst(r, slot, p) && PartEnd(r, slot, p) <= r.byteLength
  {
    SlotInBounds(r, slot);
  }

  /** No byte belongs to two parts, of one slot or of two. */
  ghost predicate PartsDisjoint(r: Region) {
    forall s: nat, t: nat, p: Part, q: Part, x: int {:trigger InPart(r, s, p, x), InPart(r, t, q, x)} ::
      s < r.nSlots && t < r.nSlots && (s != t || p != q) && InPart(r, s, p, x) ==> !InPart(r, t, q, x)
  }

  /**
   The spacing a caller can check from the header: consecutive slots, rounded down to words, still hold a slot each.
   */
  ghost predicate Spaced(r: Region) {
    forall slot: nat {:trigger Address(r, slot)} :: slot + 1 < r.nSlots ==>
      r.stride + Address(r, slot) % 4 - Address(r, slot + 1) % 4 >= SLOT_CONTROL_BYTES + 2 * r.ringCap
  }

  lemma NextAddress(r: Region, slot: nat)
    ensures Address(r, slot + 1) == Address(r, slot) + r.stride
  {
    assert (slot + 1) * r.stride == slot * r.stride + r.stride;
  }

  /** Two neighbours are apart exactly when the rounded spacing between them suffices. */
  lemma NeighboursApart(r: Region, slot: nat)
    requires Accepted(r) && slot + 1 < r.nSlots && Address(r, slot + 1) < 0x8000_0000
    ensures End(r, slot) <= First(r, slot + 1) <==>
            r.stride + Address(r, slot) % 4 - Address(r, slot + 1) % 4 >= SLOT_CONTROL_BYTES + 2 * r.ringCap
    ensures First(r, slot) < First(r, slot + 1)
  {
    NextAddress(r, slot);
    SlotWordExactly(r, slot + 1);
    SlotWordExactly(r, slot);
    hide SlotWord, Address;
  }

  lemma {:induction false} SpacedApart(r: Region, s: nat, t: nat)
    requires Accepted(r) && Addressable(r) && Spaced(r) && s < t < r.nSlots
    ensures End(r, s) <= First(r, t)
    decreases t
  {
    hide First, End, Address, Accepted;
    SlotAddressable(r, t);
    NeighboursApart(r, t - 1);
    if s >= t - 1 {
    } else {
      SpacedApart(r, s, t - 1);
      SlotAddressable(r, t - 1);
      PartInSlot(r, t - 1, Control);
    }
  }

  lemma PartsApart(r: Region, s: nat, p: Part, t: nat, q: Part)
    requires Accepted(r) && Addressable(r) && Spaced(r)
    requires s < r.nSlots && t < r.nSlots && (s != t || p != q)
    ensures PartEnd(r, s, p) <= PartFirst(r, t, q) || PartEnd(r, t, q) <= PartFirst(r, s, p)
  {
    hide Address, Accepted, Spaced;
    SlotAddressable(r, s);
    SlotAddressable(r, t);
    SlotInBounds(r, s);
    SlotInBounds(r, t);
    if s < t { SpacedApart(r, s, t); }
    if t < s { SpacedApart(r, t, s); }
  }

  /** No byte belongs to two parts exactly when the rounded spacing suffices. */
  lemma PartsDisjointExactly(r: Region)
    requires Accepted(r) && Addressable(r)
    ensures PartsDisjoint(r) <==> Spaced(r)
  {
    hide First, Accepted;
    if Spaced(r) {
      forall s: nat, t: nat, p: Part, q: Part, x: int
        | s < r.nSlots && t < r.nSlots && (s != t || p != q) && InPart(r, s, p, x)
        ensures !InPart(r, t, q, x)
      {
        PartsApart(r, s, p, t, q);
      }
    } else {
      var slot: nat :| slot + 1 < r.nSlots
        && r.stride + Address(r, slot) % 4 - Address(r, slot + 1) % 4 < SLOT_CONTROL_BYTES + 2 * r.ringCap;
      SlotsShareAByte(r, slot);
    }
  }

  /** Without that spacing the first control byte of the later slot belongs to the earlier one too. */
  lemma SlotsShareAByte(r: Region, slot: nat)
    requires Accepted(r) && Addressable(r) && slot + 1 < r.nSlots
    requires r.stride + Address(r, slot) % 4 - Address(r, slot + 1) % 4 < SLOT_CONTROL_BYTES + 2 * r.ringCap
    ensures !PartsDisjoint(r)
  {
    hide Address, Accepted;
    SlotAddressable(r, slot + 1);
    SlotAddressable(r, slot);
    NeighboursApart(r, slot);
    SlotInBounds(r, slot);
    SlotInBounds(r, slot + 1);
    var x := First(r, slot + 1);
    assert InPart(r, slot + 1, Control, x);
    assert InPart(r, slot, Control, x) || InPart(r, slot, ClientRing, x) || InPart(r, slot, WorkerRing, x);
  }

  /** With both layout numbers multiples of 4, every accepted region keeps all its parts apart. */
  lemma AlignedPartsDisjoint(r: Region)
    requires Accepted(r) && Addressable(r) && r.slotsOffset % 4 == 0 && r.stride % 4 == 0
    ensures Spaced(r) && PartsDisjoint(r)
  {
    forall slot: nat {:trigger Address(r, slot)} | slot + 1 < r.nSlots
      ensures r.stride + Address(r, slot) % 4 - Address(r, slot + 1) % 4 >= SLOT_CONTROL_BYTES + 2 * r.ringCap
    {
      AlignedAddress(r, slot);
      AlignedAddress(r, slot + 1);
    }
    PartsDisjointExactly(r);
  }

  lemma AlignedSum(a: nat, b: nat)
    requires a % 4 == 0 && b % 4 == 0
    ensures (a + b) % 4 == 0
  {
  }

  lemma {:induction false} AlignedAddress(r: Region, slot: nat)
    requires r.base % 4 == 0 && r.slotsOffset % 4 == 0 && r.stride % 4 == 0
    ensures Address(r, slot) % 4 == 0
  {
    if slot > 0 {
      AlignedAddress(r, slot - 1);
      NextAddress(r, slot - 1);
      AlignedSum(Address(r, slot - 1), r.stride);
    } else {
      AlignedSum(r.base, r.slotsOffset);
    }
  }

  /** A region the adapter accepts whose slot 0 rings cover the state word of slot 1. */
  lemma MisalignedSlotsOverlap(words: seq<int>, endpointId: seq<byte>)
    requires IsEndpointId(endpointId) && |words| == 49
    requires words[0] == MAGIC && words[1] == VERSION && words[2] == 2 && words[3] == 1
    requires words[4] == 66 && words[5] == 64
    ensures var target := Ascii("iroh://") + endpointId;
            var r := ParseRegion(target, 0, words, 196);
            r.Ok? && InPart(r.value, 0, ClientRing, 128) && InPart(r.value, 1, Control, 128) && !PartsDisjoint(r.value)
  {
    var target := Ascii("iroh://") + endpointId;
    assert target[7..] == endpointId;
    var r := ParseRegion(target, 0, words, 196).value;
    assert Address(r, 0) == 64 && Address(r, 1) == 130;
    assert InPart(r, 0, ClientRing, 128) && InPart(r, 1, Control, 128);
  }
}
