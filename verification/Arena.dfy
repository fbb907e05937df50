/**
 The circular payload zone: where the next payload goes, in the kernel's 32/64-bit arithmetic and
 in the daemon's unbounded arithmetic, and when the two agree.
 */
module Arena {
  import opened Words

  // The limit the setup ioctl enforces.
  const MAX_ZONE: nat := 64 * 1024 * 1024

  type ZoneSize = z: nat | 1 <= z <= 64 * 1024 * 1024 witness 1

  /** The kernel's reservation: `start` is a u32, the occupancy test is done in u64. */
  function ReserveKernel(head: u32, tail: u32, zone: ZoneSize, len: nat): (r: Option<u32>) {
    var mod := tail % zone;
    if len == 0 then
      Some(tail)
    else
      var start := if mod + len > zone then Word(tail + (zone - mod)) else tail;
      if (start + len - head) % U64 > zone then None else Some(start)
  }

  /** The daemon's reservation: unbounded integers, None where it raises EBUSY. */
  function ReserveDaemon(head: nat, tail: nat, zone: ZoneSize, len: nat): (r: Option<nat>) {
    var mod := tail % zone;
    if len == 0 then
      Some(tail)
    else
      var start := if mod + len > zone then tail + (zone - mod) else tail;
      if start + len - head > zone then None else Some(start)
  }

  /** What a reservation promises: no byte before the tail, no straddle, at most one zone in use. */
  lemma {:induction false} ReservationFits(head: nat, tail: nat, zone: ZoneSize, len: nat)
    requires head <= tail <= head + zone
    requires ReserveDaemon(head, tail, zone, len).Some?
    ensures
      var off := ReserveDaemon(head, tail, zone, len).value;
      && tail <= off
      && off + len <= head + zone
      && (len > 0 ==> off % zone + len <= zone)
      && (len == 0 ==> off == tail)
  {
    if len > 0 && tail % zone + len > zone {
      SkipLandsOnZero(tail, zone);
    }
  }

  /** Room for len bytes: behind the tail, not across the end of the zone, within one zone of the head. */
  predicate RoomAt(head: nat, tail: nat, zone: ZoneSize, len: nat, off: nat) {
    tail <= off && off % zone + len <= zone && off + len <= head + zone
  }

  ghost predicate FirstRoom(head: nat, tail: nat, zone: ZoneSize, len: nat, off: nat) {
    RoomAt(head, tail, zone, len, off) && forall o: nat :: RoomAt(head, tail, zone, len, o) ==> off <= o
  }

  /** Before the end of the lap the tail is in every offset is too close to the end, if the tail is. */
  lemma NoRoomBeforeSkip(head: nat, tail: nat, zone: ZoneSize, len: nat, off: nat)
    requires tail % zone + len > zone && RoomAt(head, tail, zone, len, off)
    ensures tail + (zone - tail % zone) <= off
  {
    if off < tail + (zone - tail % zone) {
      NoStraddle(tail, off - tail, zone);
    }
  }

  /** At the tail if the payload fits before the end of the zone, and otherwise at the start of the next lap. */
  function Place(tail: nat, zone: ZoneSize, len: nat): nat {
    var k := tail % zone;
    if k + len <= zone then tail else tail + (zone - k)
  }

  /** There is room if and only if the place ends within one zone of the head, and then it is the first room. */
  lemma {:induction false} PlaceIsFirstRoom(head: nat, tail: nat, zone: ZoneSize, len: nat)
    requires head <= tail <= head + zone && 0 < len
    ensures
      var place := Place(tail, zone, len);
      && ((exists off: nat :: RoomAt(head, tail, zone, len, off)) <==> place + len <= head + zone)
      && (place + len <= head + zone ==> FirstRoom(head, tail, zone, len, place))
  {
    var k, place := tail % zone, Place(tail, zone, len);
    assert 0 <= k < zone;
    if k + len > zone {
      SkipLandsOnZero(tail, zone);
      forall off: nat | RoomAt(head, tail, zone, len, off)
        ensures place <= off
      {
        NoRoomBeforeSkip(head, tail, zone, len, off);
      }
    }
    if place + len <= head + zone {
      assert RoomAt(head, tail, zone, len, place);
    }
  }

  /** The daemon reserves if and only if there is room, whatever is undrained, and takes the first. */
  lemma {:induction false} DaemonReservesFirstRoom(head: nat, tail: nat, zone: ZoneSize, len: nat)
    requires head <= tail <= head + zone && 0 < len
    ensures
      var r := ReserveDaemon(head, tail, zone, len);
      && (r.Some? <==> exists off: nat :: RoomAt(head, tail, zone, len, off))
      && (r.Some? ==> FirstRoom(head, tail, zone, len, r.value))
  {
    PlaceIsFirstRoom(head, tail, zone, len);
    hide RoomAt, FirstRoom;
  }

  /** The kernel's u64 occupancy: exact, unless the head is beyond the end and it wraps to a huge value. */
  lemma OccupancyInU64(start: u32, len: nat, head: u32)
    requires len <= MAX_PAYLOAD
    ensures (start + len - head) % U64
         == if head <= start + len then start + len - head else start + len - head + U64
  {
  }

  /** A 32-bit difference that is small on both sides is exact. */
  lemma SmallWordDifference(h: nat, s: nat, len: nat, zone: ZoneSize)
    requires h <= s <= h + 2 * zone && len <= MAX_PAYLOAD
    requires (Word(s) + len - Word(h)) % U64 <= zone
    ensures s + len - h <= zone
  {
    OccupancyInU64(Word(s), len, Word(h));
    var k := s / U32 - h / U32;
    assert s - h == Word(s) - Word(h) + k * U32;
  }

  /**
   Whatever the kernel's wrapping arithmetic accepts, the unbounded arithmetic accepts at the same
   place, even after the counters passed 2^32, as long as the zone divides 2^32.
   */
  lemma {:induction false} KernelReserveIsSound(head: nat, tail: nat, zone: ZoneSize, len: nat)
    requires head <= tail <= head + zone && len <= MAX_PAYLOAD
    requires U32 % zone == 0 || tail < U32
    requires ReserveKernel(Word(head), Word(tail), zone, len).Some?
    ensures
      var r := ReserveDaemon(head, tail, zone, len);
      r.Some? && ReserveKernel(Word(head), Word(tail), zone, len).value == Word(r.value)
  {
    WordKeepsSlot(tail, zone);
    if len > 0 {
      var mod := tail % zone;
      var start := if mod + len > zone then tail + (zone - mod) else tail;
      WordAdd(tail, zone - mod);
      SmallWordDifference(head, start, len, zone);
    }
  }

  /** The kernel's occupancy test in words: right, unless the place and the head are on two sides of a wrap. */
  lemma WordOccupancy(h: nat, s: nat, len: nat, zone: ZoneSize)
    requires h <= s <= h + 2 * zone && len <= MAX_PAYLOAD
    ensures (Word(s) + len - Word(h)) % U64 <= zone <==> s + len - h <= zone && s / U32 == h / U32
  {
    OccupancyInU64(Word(s), len, Word(h));
    var k := s / U32 - h / U32;
    assert s - h == Word(s) - Word(h) + k * U32;
  }

  /**
   The kernel in words, for all counters: it reserves if and only if there is room and the first is not on
   the other side of a multiple of 2^32 from the head, and takes the first.
   */
  lemma {:induction false} KernelReservesFirstRoom(head: nat, tail: nat, zone: ZoneSize, len: nat)
    requires head <= tail <= head + zone && 0 < len <= MAX_PAYLOAD
    requires U32 % zone == 0 || tail < U32
    ensures
      var place := Place(tail, zone, len);
      ReserveKernel(Word(head), Word(tail), zone, len)
        == if place + len <= head + zone && place / U32 == head / U32 then Some(Word(place)) else None
  {
    WordKeepsSlot(tail, zone);
    var k := tail % zone;
    assert 0 <= k < zone;
    WordAdd(tail, zone - k);
    WordOccupancy(head, Place(tail, zone, len), len, zone);
  }

  /** Below 2^32 the two implementations are the same function, acceptance and rejection alike. */
  lemma {:induction false} ReserveAgreesBelowWrap(head: nat, tail: nat, zone: ZoneSize, len: nat)
    requires head <= tail <= head + zone && len <= MAX_PAYLOAD
    requires tail + zone < U32
    ensures ReserveKernel(head, tail, zone, len) == ReserveDaemon(head, tail, zone, len)
  {
    var mod := tail % zone;
    var start := if mod + len > zone then tail + (zone - mod) else tail;
    assert 0 <= mod < zone && tail <= start <= tail + zone;
    if len > 0 {
      OccupancyInU64(start, len, head);
      assert Word(start) == start;
    }
  }

  /**
   A drained kernel arena (head equal to tail) accepts L > 0 bytes exactly when they fit before the
   end of the zone, or in front of the tail without the skip leaving the 32-bit range.
   */
  lemma {:induction false} DrainedKernelArenaAccepts(tail: u32, zone: ZoneSize, len: nat)
    requires 0 < len <= MAX_PAYLOAD
    ensures
      var m := tail % zone;
      ReserveKernel(tail, tail, zone, len).Some?
      <==> len <= zone - m || (len <= m && tail + (zone - m) < U32)
  {
    var m := tail % zone;
    var start := if m + len > zone then Word(tail + (zone - m)) else tail;
    assert 0 <= m < zone;
    OccupancyInU64(start, len, tail);
  }

  /** The daemon reserves whenever there is room; the offset may be 2^32. */
  lemma {:induction false} DaemonReserves(tail: nat, zone: ZoneSize, len: nat)
    requires 0 < len
    ensures
      var m := tail % zone;
      ReserveDaemon(tail, tail, zone, len).Some? <==> len <= zone - m || len <= m
  {
  }

  /**
   But the descriptor has 32 bits for the offset, so the daemon's drained arena takes L > 0 bytes exactly
   when the kernel's does: the skip must not leave the 32-bit range.
   */
  lemma {:induction false} DrainedDaemonArenaAccepts(tail: u32, zone: ZoneSize, len: nat)
    requires 0 < len <= MAX_PAYLOAD
    ensures
      var m := tail % zone;
      var r := ReserveDaemon(tail, tail, zone, len);
      && (r.Some? && r.value < U32 <==> len <= zone - m || (len <= m && tail + (zone - m) < U32))
      && (r.Some? && r.value < U32 <==> ReserveKernel(tail, tail, zone, len).Some?)
  {
    DrainedKernelArenaAccepts(tail, zone, len);
    hide ReserveKernel;
    assert 0 <= tail % zone < zone;
  }

  /** Anything up to half the zone goes through once the consumer has caught up, below the wrap. */
  lemma {:induction false} HalfZoneAlwaysFits(tail: u32, zone: ZoneSize, len: nat)
    requires 0 < len <= MAX_PAYLOAD && 2 * len <= zone && tail + zone < U32
    ensures ReserveKernel(tail, tail, zone, len).Some? && ReserveDaemon(tail, tail, zone, len).Some?
    ensures ReserveDaemon(tail, tail, zone, len).value < U32
  {
    DrainedKernelArenaAccepts(tail, zone, len);
    DrainedDaemonArenaAccepts(tail, zone, len);
  }

  /** Every payload the senders accept goes through a drained zone, below the wrap. */
  ghost predicate TakesEveryPayload(zone: ZoneSize) {
    forall tail: u32, len: nat :: 0 < len <= MAX_PAYLOAD && tail + zone < U32 ==>
      ReserveKernel(tail, tail, zone, len).Some?
  }

  lemma RoomyZoneTakes(tail: u32, zone: ZoneSize, len: nat)
    requires 2 * MAX_PAYLOAD <= zone + 1 && 0 < len <= MAX_PAYLOAD && tail + zone < U32
    ensures ReserveKernel(tail, tail, zone, len).Some?
  {
    DrainedKernelArenaAccepts(tail, zone, len);
    hide ReserveKernel;
    var m := tail % zone;
    assert 0 <= m < zone;
  }

  lemma TightZoneRefuses(zone: ZoneSize)
    requires zone + 1 < 2 * MAX_PAYLOAD
    ensures ReserveKernel(zone / 2, zone / 2, zone, MAX_PAYLOAD).None?
  {
    DrainedKernelArenaAccepts(zone / 2, zone, MAX_PAYLOAD);
    hide ReserveKernel;
    ModOfSum(0, zone / 2, zone);
  }

  /** A zone takes every payload, wherever its tail is, if and only if it has twice the largest one, less a byte. */
  lemma {:induction false} TakesEveryPayloadIff(zone: ZoneSize)
    ensures TakesEveryPayload(zone) <==> 2 * MAX_PAYLOAD <= zone + 1
  {
    hide ReserveKernel;
    if 2 * MAX_PAYLOAD <= zone + 1 {
      forall tail: u32, len: nat | 0 < len <= MAX_PAYLOAD && tail + zone < U32
        ensures ReserveKernel(tail, tail, zone, len).Some?
      {
        RoomyZoneTakes(tail, zone, len);
      }
    } else {
      TightZoneRefuses(zone);
    }
  }

  /**
   The exact edge: the default 4 MiB transport zone, drained ten bytes short of 2^32, refuses the
   smallest request the kernel ever sends (a 20-byte UART control), and nothing the consumer does changes
   that. In a zone of the daemon the reservation is 2^32, which no descriptor can hold.
   */
  lemma DrainedKernelArenaStuckAtWrap()
    ensures
      var tail: u32 := 0xFFFF_FFF6;
      && ReserveKernel(tail, tail, 4 * 1024 * 1024, 20) == None
      && ReserveDaemon(tail, tail, 4 * 1024 * 1024, 20) == Some(U32)
  {
    DrainedKernelArenaAccepts(0xFFFF_FFF6, 4 * 1024 * 1024, 20);
  }
}
