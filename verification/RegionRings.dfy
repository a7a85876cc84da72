/**
 The rings of all slots over one shared buffer: running one ring's code leaves every other ring and all control bytes
 alone.
 */
module RegionRings {
  import opened Bytes
  import opened Region
  import opened RingProtocol
  import R = SharedRing

  /** A ring's place in the region. */
  datatype Seat = Seat(slot: nat, side: Part)

  type Rings = map<Seat, R.SharedRing>

  predicate IsSeat(r: Region, seat: Seat) {
    seat.slot < r.nSlots && !seat.side.Control?
  }

  /** The ring sits where the adapter computes its data offset. */
  ghost predicate Placed(r: Region, seat: Seat, ring: R.SharedRing, bytes: array<byte>) {
    && IsSeat(r, seat)
    && ring.bytes == bytes && bytes.Length == r.byteLength
    && ring.ringCap == r.ringCap && ring.dataOffset == PartFirst(r, seat.slot, seat.side)
  }

  /** Every ring is in its place and keeps its invariant. */
  ghost predicate RegionValid(r: Region, rings: Rings, bytes: array<byte>)
    reads bytes, rings.Values
  {
    && Accepted(r) && Addressable(r) && Spaced(r)
    && (forall seat :: seat in rings ==> Placed(r, seat, rings[seat], bytes) && rings[seat].Valid())
    && (forall s, t :: s in rings && t in rings && s != t ==> rings[s] != rings[t])
  }

  /** Every byte of every slot's control words is as before. */
  twostate predicate ControlKept(r: Region, bytes: array<byte>)
    reads bytes
  {
    forall slot: nat, x: int {:trigger InPart(r, slot, Control, x)} ::
      slot < r.nSlots && InPart(r, slot, Control, x) && 0 <= x < bytes.Length ==> bytes[x] == old(bytes[x])
  }

  /** No control byte lies in a ring. */
  lemma ControlApart(r: Region, seat: Seat)
    requires Accepted(r) && Addressable(r) && Spaced(r) && IsSeat(r, seat)
    ensures forall slot: nat, x: int {:trigger InPart(r, slot, Control, x)} ::
              slot < r.nSlots && InPart(r, slot, Control, x) ==> !InPart(r, seat.slot, seat.side, x)
  {
    forall slot: nat, x: int | slot < r.nSlots && InPart(r, slot, Control, x)
      ensures !InPart(r, seat.slot, seat.side, x)
    {
      PartsApart(r, slot, Control, seat.slot, seat.side);
    }
  }

  /** Reading a client's bytes on one slot. */
  method ReadAt(r: Region, rings: Rings, seat: Seat, bytes: array<byte>, wakeups: nat)
    returns (chunk: R.ReadResult, ghost seen: seq<byte>)
    requires RegionValid(r, rings, bytes) && seat in rings && wakeups > 0
    modifies rings[seat], bytes
    ensures RegionValid(r, rings, bytes) && ControlKept(r, bytes)
    ensures rings[seat].got == old(rings[seat].got) + if chunk.Chunk? then chunk.bytes else []
  {
    chunk, seen := rings[seat].ReadClientChunk(wakeups);
    forall t | t in rings && t != seat
      ensures rings[t].Valid()
    {
      PartsApart(r, seat.slot, seat.side, t.slot, t.side);
    }
    ControlApart(r, seat);
  }

  /** Writing to a client on one slot. */
  method WriteAt(r: Region, rings: Rings, seat: Seat, bytes: array<byte>, chunk: seq<byte>, wakeups: nat)
    returns (w: R.WriteResult)
    requires RegionValid(r, rings, bytes) && seat in rings && rings[seat].write + |chunk| <= MAX_INT32
    modifies rings[seat], bytes
    ensures RegionValid(r, rings, bytes) && ControlKept(r, bytes)
    ensures old(rings[seat].sent) <= rings[seat].sent <= old(rings[seat].sent) + chunk
    ensures w.Written? ==> rings[seat].sent == old(rings[seat].sent) + chunk
  {
    w := rings[seat].WriteWorkerChunk(chunk, wakeups);
    forall t | t in rings && t != seat
      ensures rings[t].Valid()
    {
      PartsApart(r, seat.slot, seat.side, t.slot, t.side);
    }
    ControlApart(r, seat);
  }

  /** The rings of a freshly claimed slot, where the region puts them. */
  method ClaimSlot(r: Region, slot: nat, bytes: array<byte>, start: nat)
    returns (client: R.SharedRing, worker: R.SharedRing)
    requires Accepted(r) && Addressable(r) && slot < r.nSlots && bytes.Length == r.byteLength && start <= MAX_INT32
    ensures fresh(client) && fresh(worker) && client != worker
    ensures Placed(r, Seat(slot, ClientRing), client, bytes) && Placed(r, Seat(slot, WorkerRing), worker, bytes)
    ensures client.dataOffset + client.ringCap <= worker.dataOffset
    ensures client.Valid() && worker.Valid() && client.sent == [] && worker.sent == []
    ensures client.Owned() && worker.Owned() && !client.closed && !worker.closed
  {
    SlotAddressable(r, slot);
    PartInSlot(r, slot, ClientRing);
    PartInSlot(r, slot, WorkerRing);
    client := new R.SharedRing(bytes, DataOffset(r, slot), r.ringCap, start);
    worker := new R.SharedRing(bytes, DataOffset(r, slot) + r.ringCap, r.ringCap, start);
  }
}
