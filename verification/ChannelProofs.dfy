/** The channel is a FIFO of messages under every interleaving of its producer and its consumer. */
module ChannelProofs {
  import opened Words
  import opened Arena
  import opened ChannelModel

  // ---- Geometry of the zone ----

  /** Entries of one window occupy disjoint byte ranges of the zone. */
  lemma {:induction false} DisjointInZone(zone: ZoneSize, e: Entry, f: Entry)
    requires e.End() <= f.off && f.End() <= e.off + zone
    requires |e.msg.payload| > 0 && |f.msg.payload| > 0
    requires Fits(zone, e) && Fits(zone, f)
    ensures
      || e.off % zone + |e.msg.payload| <= f.off % zone
      || f.off % zone + |f.msg.payload| <= e.off % zone
  {
    var p, q := e.off % zone, f.off % zone;
    if q < p + |e.msg.payload| && p < q + |f.msg.payload| {
      var x := if p < q then q else p;
      NoStraddle(e.off, x - p, zone);
      NoStraddle(f.off, x - q, zone);
      DistinctWithinLap(e.off + (x - p), f.off + (x - q), zone);
    }
  }

  lemma ViewAfterSplice(a: seq<byte>, p: nat, data: seq<byte>, q: nat, len: nat)
    requires p + |data| <= |a| && q + len <= |a|
    requires q + len <= p || p + |data| <= q
    ensures View(Splice(a, p, data), q, len) == View(a, q, len)
  {
    var b := Splice(a, p, data);
    assert forall k :: q <= k < q + len ==> b[k] == a[k];
  }

  lemma ViewOfSplice(a: seq<byte>, p: nat, data: seq<byte>)
    requires p + |data| <= |a|
    ensures View(Splice(a, p, data), p, |data|) == data
  {
  }

  // ---- Preservation, one event at a time ----

  lemma OfferKeepsInv(s: Chan, m: Msg)
    requires Inv(s) && Exact(s)
    ensures Inv(StepOffer(s, m))
  {
    hide DescsOk, SlotHolds, Chained, Fits, BytesOk, Holds, Msgs;
    var s' := StepOffer(s, m);
    WordDistance(s.h.rh, s.h.rt);
    if s'.prod.RingChecked? && s.prod.Idle? {
      assert Flow(s') == Flow(s);
      assert |s.h.flight| < s.cfg.entries;
    }
  }

  /** An accepted reservation in words is the unbounded reservation. */
  lemma ReserveWordsIsSound(s: Chan, len: nat)
    requires Inv(s) && Exact(s) && len <= MAX_PAYLOAD
    requires ReserveWords(s, len).Some?
    ensures
      var r := ReserveDaemon(s.h.ph, s.h.pt, s.cfg.zone, len);
      r.Some? && ReserveWords(s, len).value == Word(r.value)
  {
    hide DescsOk, SlotHolds, Chained, Fits, BytesOk, Holds, Msgs;
    hide RingOk, ProducerOk, ConsumerOk, ReserveKernel, LastEnd;
    match s.cfg.side
    case Kernel =>
      KernelReserveIsSound(s.h.ph, s.h.pt, s.cfg.zone, len);
    case Daemon =>
      assert s.payHead == s.h.ph && s.payTail == s.h.pt;
  }

  lemma {:induction false} ChainedSnoc(zone: ZoneSize, base: nat, top: nat, es: seq<Entry>, e: Entry)
    requires base <= top && Chained(zone, base, top, es)
    requires LastEnd(base, es) <= e.off && e.End() <= top && Fits(zone, e)
    ensures Chained(zone, base, top, es + [e])
  {
    LastEndBounds(zone, base, top, es);
  }

  lemma ReserveKeepsInv(s: Chan)
    requires Inv(s) && Exact(s)
    ensures Inv(StepReserve(s))
  {
    hide DescsOk, SlotHolds, Chained, BytesOk, Holds, Msgs, LastEnd, ReserveKernel, ReserveDaemon;
    var s' := StepReserve(s);
    if s.prod.RingChecked? {
      assert Flow(s) == Published(s);
      if s'.prod.Reserved? {
        var zone, len := s.cfg.zone, |s.prod.m.payload|;
        ReserveWordsIsSound(s, len);
        ReservationFits(s.h.ph, s.h.pt, zone, len);
        ChainedSnoc(zone, s.h.ph, s.h.ph + zone, Published(s), Entry(s'.h.poff, s.prod.m));
      } else {
        assert Flow(s') == Flow(s);
      }
    }
  }

  lemma LastEndBounds(zone: ZoneSize, base: nat, top: nat, es: seq<Entry>)
    requires base <= top && Chained(zone, base, top, es)
    ensures base <= LastEnd(base, es) <= top
    ensures forall i :: 0 <= i < |es| ==> es[i].End() <= LastEnd(base, es)
  {
    forall i | 0 <= i < |es|
      ensures es[i].End() <= LastEnd(base, es)
    {
      if i < |es| - 1 {
        assert es[i].End() <= es[|es| - 1].off;
      }
    }
  }

  /** Copying a payload behind the entries of a window leaves their bytes alone. */
  lemma CopyKeepsBytes(arena: seq<byte>, zone: ZoneSize, base: nat, es: seq<Entry>, e: Entry)
    requires |arena| == zone && BytesOk(arena, zone, es) && Chained(zone, base, base + zone, es + [e])
    ensures
      var arena' := Splice(arena, e.off % zone, e.msg.payload);
      BytesOk(arena', zone, es) && Holds(arena', zone, e)
  {
    var all, arena' := es + [e], Splice(arena, e.off % zone, e.msg.payload);
    assert all[|es|] == e;
    if |e.msg.payload| == 0 {
      assert arena' == arena;
    } else {
      ViewOfSplice(arena, e.off % zone, e.msg.payload);
      hide Splice, View;
      forall i | 0 <= i < |es|
        ensures Holds(arena', zone, es[i])
      {
        var f := es[i];
        assert all[i] == f;
        if |f.msg.payload| > 0 {
          DisjointInZone(zone, f, e);
          ViewAfterSplice(arena, e.off % zone, e.msg.payload, f.off % zone, |f.msg.payload|);
        }
      }
    }
  }

  lemma SpliceNothing(arena: seq<byte>, p: nat)
    ensures Splice(arena, p, []) == arena
  {
  }

  /** The copy lands where the unbounded offset of the reservation says. */
  lemma CopyLands(s: Chan)
    requires Inv(s) && Exact(s) && s.prod.Reserved?
    ensures
      StepCopyPayload(s).arena == Splice(s.arena, s.h.poff % s.cfg.zone, s.prod.m.payload)
  {
    if |s.prod.m.payload| == 0 {
      SpliceNothing(s.arena, s.h.poff % s.cfg.zone);
      SpliceNothing(s.arena, s.prod.off % s.cfg.zone);
    } else {
      SlotOfReservation(s);
    }
    hide Inv, Exact, Splice;
  }

  lemma CopyPayloadKeepsInv(s: Chan)
    requires Inv(s) && Exact(s)
    ensures Inv(StepCopyPayload(s))
  {
    if s.prod.Reserved? {
      var s' := StepCopyPayload(s);
      var e := Entry(s.h.poff, s.prod.m);
      CopyLands(s);
      hide DescsOk, SlotHolds, Msgs, Splice, Fits, Holds, BytesOk, Chained, LastEnd;
      assert Flow(s) == Published(s) + [e];
      CopyKeepsBytes(s.arena, s.cfg.zone, s.h.ph, Published(s), e);
      assert Published(s') == Published(s) && Flow(s') == Flow(s);
    }
  }

  /** The word offset of a reservation addresses the same slot as the unbounded one. */
  lemma SlotOfReservation(s: Chan)
    requires Inv(s) && Exact(s) && PendingEntry(s) != [] && |s.prod.m.payload| > 0
    ensures s.prod.off % s.cfg.zone == s.h.poff % s.cfg.zone
  {
    assert Flow(s)[|Published(s)|] == Entry(s.h.poff, s.prod.m);
    WordKeepsSlot(s.h.poff, s.cfg.zone);
  }

  /** Writing the slot after the newest descriptor leaves every undrained one alone. */
  lemma {:induction false} DescsAfterWrite(cfg: Config, ring: seq<Desc>, rh: nat, flight: seq<Entry>, d: Desc)
    requires cfg.Valid() && |ring| == cfg.entries && |flight| < cfg.entries
    requires DescsOk(cfg, ring, rh, flight)
    ensures DescsOk(cfg, ring[(rh + |flight|) % cfg.entries := d], rh, flight)
  {
    var ring' := ring[(rh + |flight|) % cfg.entries := d];
    forall i | 0 <= i < |flight|
      ensures SlotHolds(cfg, ring', rh + i, flight[i])
    {
      assert SlotHolds(cfg, ring, rh + i, flight[i]);
      DistinctWithinLap(rh + i, rh + |flight|, cfg.entries);
    }
  }

  lemma WriteDescKeepsRing(s: Chan)
    requires RingOk(s) && WordsOk(s) && ProducerOk(s) && Exact(s) && s.prod.Copied?
    ensures RingOk(StepWriteDesc(s))
  {
    hide DescsOk, Holds;
    var slot := s.h.rt % s.cfg.entries;
    assert s.ringTail % s.cfg.entries == slot by { WordKeepsSlot(s.h.rt, s.cfg.entries); }
    DescsAfterWrite(s.cfg, s.ring, s.h.rh, s.h.flight, DescOf(s.cfg, s.prod.m, s.prod.off));
  }

  lemma WriteDescKeepsInv(s: Chan)
    requires Inv(s) && Exact(s)
    ensures Inv(StepWriteDesc(s))
  {
    if s.prod.Copied? {
      WriteDescKeepsRing(s);
      hide RingOk, ArenaOk, Holds, Msgs;
      assert Flow(StepWriteDesc(s)) == Flow(s);
      SameFlowSameArena(s, StepWriteDesc(s));
    }
  }

  lemma SameFlowSameArena(s: Chan, s': Chan)
    requires s'.cfg == s.cfg && s'.arena == s.arena && s'.h == s.h && Flow(s') == Flow(s)
    requires !s.prod.TailMoved? && !s'.prod.TailMoved?
    ensures ArenaOk(s') == ArenaOk(s)
  {
    hide Chained, BytesOk, LastEnd;
    assert Published(s') == Published(s);
  }

  lemma MovePayTailKeepsArena(s: Chan)
    requires ArenaOk(s) && s.prod.Described?
    ensures ArenaOk(StepMovePayTail(s))
  {
    hide Chained, Fits, BytesOk, Holds;
    var s' := StepMovePayTail(s);
    assert Flow(s') == Flow(s) == Published(s) + [Entry(s.h.poff, s.prod.m)];
    LastEndBounds(s.cfg.zone, s.h.ph, s.h.ph + s.cfg.zone, Flow(s));
  }

  lemma MovePayTailKeepsInv(s: Chan)
    requires Inv(s) && Exact(s)
    ensures Inv(StepMovePayTail(s))
  {
    hide DescsOk, SlotHolds, Chained, Fits, BytesOk, Holds, Msgs, LastEnd;
    if s.prod.Described? {
      MovePayTailKeepsArena(s);
      hide ArenaOk;
      WordAdd(s.h.poff, |s.prod.m.payload|);
    }
  }

  lemma MoveRingTailKeepsRing(s: Chan)
    requires RingOk(s) && s.prod.TailMoved?
    ensures RingOk(StepMoveRingTail(s))
  {
    hide SlotHolds;
    var s' := StepMoveRingTail(s);
    forall i | 0 <= i < |s'.h.flight|
      ensures SlotHolds(s.cfg, s.ring, s.h.rh + i, s'.h.flight[i])
    {
      assert i < |s.h.flight| ==> s'.h.flight[i] == s.h.flight[i];
    }
  }

  lemma MoveRingTailKeepsFlow(s: Chan)
    requires s.prod.TailMoved?
    ensures
      var s' := StepMoveRingTail(s);
      && Published(s') == Flow(s) == Flow(s')
      && Msgs(Published(s')) == Msgs(Published(s)) + [s.prod.m]
  {
    var s' := StepMoveRingTail(s);
    assert Published(s') == Published(s) + [Entry(s.h.poff, s.prod.m)];
  }

  lemma MoveRingTailKeepsArena(s: Chan)
    requires ArenaOk(s) && ProducerOk(s) && s.prod.TailMoved?
    ensures ArenaOk(StepMoveRingTail(s))
  {
    hide Chained, Holds, Msgs;
    MoveRingTailKeepsFlow(s);
  }

  lemma MoveRingTailKeepsInv(s: Chan)
    requires Inv(s)
    ensures Inv(StepMoveRingTail(s))
  {
    hide RingOk, ArenaOk, Holds, Msgs;
    if s.prod.TailMoved? {
      WordAdd(s.h.rt, 1);
      MoveRingTailKeepsRing(s);
      MoveRingTailKeepsFlow(s);
      MoveRingTailKeepsArena(s);
    }
  }

  /** Every entry in flight ends at or before the payload tail. */
  lemma FlightBelowTail(s: Chan, i: nat)
    requires ArenaOk(s) && i < |s.h.flight|
    ensures s.h.flight[i].End() <= s.h.pt
    ensures Holds(s.arena, s.cfg.zone, s.h.flight[i])
  {
    hide Fits, Holds;
    var es := if s.prod.TailMoved? then Flow(s) else Published(s);
    ChainedPrefix(s.cfg.zone, s.h.ph, s.h.ph + s.cfg.zone, Published(s), PendingEntry(s));
    LastEndBounds(s.cfg.zone, s.h.ph, s.h.ph + s.cfg.zone, es);
    assert es[|s.h.retiring| + i] == s.h.flight[i] == Published(s)[|s.h.retiring| + i];
  }

  /** The bytes at a descriptor's word offset are the payload of its entry. */
  lemma DescAddressesPayload(s: Chan, e: Entry)
    requires PayloadExact(s) && e.End() <= s.h.pt && Holds(s.arena, s.cfg.zone, e)
    requires |s.arena| == s.cfg.zone
    ensures View(s.arena, Word(e.off) % s.cfg.zone, |e.msg.payload|) == e.msg.payload
  {
    WordKeepsSlot(e.off, s.cfg.zone);
  }

  /** The consumer's three reads, one after the other. */
  function StepTake(s: Chan): Chan
    requires s.cfg.Valid() && |s.ring| == s.cfg.entries
  {
    StepReadPayload(StepReadDesc(StepSeeEntry(s)))
  }

  lemma SeenIsThere(s: Chan)
    requires WordsOk(s) && RingShape(s) && s.ringHead != s.ringTail
    ensures s.h.flight != []
  {
    WordDistance(s.h.rh, s.h.rt);
  }

  /** The descriptor at the ring head is that of the oldest accepted message, and its session matches. */
  lemma DescIsOldest(s: Chan)
    requires WordsOk(s) && RingOk(s) && RingExact(s) && s.h.flight != []
    ensures
      s.ring[s.ringHead % s.cfg.entries] == DescOf(s.cfg, s.h.flight[0].msg, Word(s.h.flight[0].off))
  {
    assert s.ringHead % s.cfg.entries == s.h.rh % s.cfg.entries by { WordKeepsSlot(s.h.rh, s.cfg.entries); }
    assert SlotHolds(s.cfg, s.ring, s.h.rh + 0, s.h.flight[0]);
  }

  /** The bytes such a descriptor addresses are the payload of the oldest accepted message. */
  lemma PayloadIsOldest(s: Chan)
    requires ArenaOk(s) && PayloadExact(s) && s.h.flight != []
    ensures
      var e := s.h.flight[0];
      View(s.arena, Word(e.off) % s.cfg.zone, |e.msg.payload|) == e.msg.payload
  {
    hide Holds, View;
    FlightBelowTail(s, 0);
    assert |s.arena| == s.cfg.zone by { ArenaLength(s); }
    DescAddressesPayload(s, s.h.flight[0]);
  }

  lemma ArenaLength(s: Chan)
    requires ArenaOk(s)
    ensures |s.arena| == s.cfg.zone
  {
  }

  /** A step that only moves the consumer's program counter keeps everything else. */
  lemma ConsumerOnly(s: Chan, s': Chan)
    requires Inv(s) && s' == s.(cons := s'.cons) && ConsumerOk(s')
    ensures Inv(s')
  {
    hide DescsOk, SlotHolds, Chained, BytesOk, Holds, Msgs, LastEnd, Word;
    assert Flow(s') == Flow(s) && Published(s') == Published(s);
  }

  lemma SeeEntryKeepsInv(s: Chan)
    requires Inv(s)
    ensures Inv(StepSeeEntry(s))
  {
    hide RingOk, ArenaOk, ProducerOk, Msgs;
    if s.cons.Waiting? && s.ringHead != s.ringTail {
      assert RingShape(s) by { RingHasShape(s); }
      SeenIsThere(s);
      ConsumerOnly(s, StepSeeEntry(s));
    }
  }

  lemma RingHasShape(s: Chan)
    requires RingOk(s)
    ensures RingShape(s)
  {
  }

  lemma ReadDescKeepsInv(s: Chan)
    requires Inv(s) && Exact(s)
    ensures Inv(StepReadDesc(s))
    ensures s.cons.Seen? ==>
      && s.h.flight != []
      && StepReadDesc(s) == s.(cons := GotDesc(DescOf(s.cfg, s.h.flight[0].msg, Word(s.h.flight[0].off))))
  {
    hide WordsOk, ArenaOk, ProducerOk, Msgs, DescsOk, SlotHolds, PayloadExact;
    if s.cons.Seen? {
      DescIsOldest(s);
      ConsumerOnly(s, StepReadDesc(s));
    }
  }

  lemma ReadPayloadKeepsInv(s: Chan)
    requires Inv(s) && Exact(s)
    ensures Inv(StepReadPayload(s))
    ensures s.cons.GotDesc? ==>
      && s.h.flight != []
      && StepReadPayload(s) == s.(cons := Took(s.cons.desc, s.h.flight[0].msg.payload))
  {
    hide WordsOk, RingOk, ArenaOk, ProducerOk, Msgs, View;
    if s.cons.GotDesc? {
      PayloadIsOldest(s);
      ConsumerOnly(s, StepReadPayload(s));
    }
  }

  /** What the consumer's three reads find is the oldest accepted message, and its session always matches. */
  lemma TakeReadsOldest(s: Chan)
    requires Inv(s) && Exact(s) && s.cons.Waiting? && s.ringHead != s.ringTail
    ensures
      && s.h.flight != []
      && !StepTake(s).desynced
      && StepTake(s) == s.(cons := StepTake(s).cons)
      && StepTake(s).cons
         == Took(DescOf(s.cfg, s.h.flight[0].msg, Word(s.h.flight[0].off)), s.h.flight[0].msg.payload)
    ensures Inv(StepTake(s))
  {
    hide WordsOk, RingOk, ArenaOk, ProducerOk, Msgs, StepReadDesc, StepReadPayload, RingExact, PayloadExact;
    RingHasShape(s);
    SeeEntryKeepsInv(s);
    var s1 := StepSeeEntry(s);
    SameExact(s, s1);
    ReadDescKeepsInv(s1);
    var s2 := StepReadDesc(s1);
    SameExact(s, s2);
    ReadPayloadKeepsInv(s2);
  }

  lemma SameExact(s: Chan, s': Chan)
    requires s' == s.(cons := s'.cons)
    ensures RingExact(s') == RingExact(s) && PayloadExact(s') == PayloadExact(s)
  {
  }

  lemma {:induction false} DescsAfterAdvance(cfg: Config, ring: seq<Desc>, rh: nat, flight: seq<Entry>)
    requires cfg.Valid() && |ring| == cfg.entries && flight != []
    requires DescsOk(cfg, ring, rh, flight)
    ensures DescsOk(cfg, ring, rh + 1, flight[1..])
  {
    forall i | 0 <= i < |flight[1..]|
      ensures SlotHolds(cfg, ring, rh + 1 + i, flight[1..][i])
    {
      assert SlotHolds(cfg, ring, rh + (i + 1), flight[i + 1]);
    }
  }

  lemma MoveRingHeadKeepsRing(s: Chan)
    requires RingOk(s) && s.cons.Took? && s.h.flight != []
    ensures RingOk(StepMoveRingHead(s))
  {
    hide SlotHolds;
    DescsAfterAdvance(s.cfg, s.ring, s.h.rh, s.h.flight);
    hide DescsOk;
  }

  lemma MoveRingHeadKeepsInv(s: Chan)
    requires Inv(s) && Exact(s)
    ensures Inv(StepMoveRingHead(s))
  {
    hide RingOk, SlotHolds, Chained, Fits, BytesOk, Holds, Msgs, LastEnd;
    if s.cons.Took? {
      var s' := StepMoveRingHead(s);
      MoveRingHeadKeepsRing(s);
      WordAdd(s.h.rh, 1);
      assert Published(s') == Published(s) && Flow(s') == Flow(s);
    }
  }

  /** Dropping the oldest entry moves the window's base to that entry's end. */
  lemma {:induction false} ChainedTail(zone: ZoneSize, base: nat, top: nat, e: Entry, es: seq<Entry>)
    requires base <= top && Chained(zone, base, top, [e] + es)
    ensures base <= e.End() && Chained(zone, e.End(), e.End() + (top - base), es)
  {
    hide Fits;
    var all := [e] + es;
    assert all[0] == e;
    forall i | 0 <= i < |es|
      ensures all[i + 1] == es[i] && e.End() <= es[i].off && es[i].End() <= top
    {
      assert all[0].End() <= all[i + 1].off;
    }
    forall i, j | 0 <= i < j < |es|
      ensures es[i].End() <= es[j].off
    {
      assert all[i + 1].End() <= all[j + 1].off;
    }
  }

  lemma LastEndTail(base: nat, e: Entry, es: seq<Entry>)
    ensures LastEnd(base, [e] + es) == LastEnd(e.End(), es)
  {
    if es != [] {
      assert ([e] + es)[|es|] == es[|es| - 1];
    }
  }

  lemma {:induction false} ChainedPrefix(zone: ZoneSize, base: nat, top: nat, es: seq<Entry>, rest: seq<Entry>)
    requires Chained(zone, base, top, es + rest)
    ensures Chained(zone, base, top, es)
  {
    assert forall i :: 0 <= i < |es| ==> es[i] == (es + rest)[i];
  }

  lemma {:induction false} BytesTail(arena: seq<byte>, zone: ZoneSize, e: Entry, es: seq<Entry>)
    requires BytesOk(arena, zone, [e] + es)
    ensures BytesOk(arena, zone, es)
  {
    assert forall i :: 0 <= i < |es| ==> es[i] == ([e] + es)[i + 1];
  }

  lemma MsgsCons(e: Entry, es: seq<Entry>)
    ensures Msgs([e] + es) == [e.msg] + Msgs(es)
  {
  }

  lemma MovePayHeadKeepsArena(s: Chan)
    requires ArenaOk(s) && ConsumerOk(s) && s.cons.HeadMoved?
    ensures ArenaOk(StepMovePayHead(s))
  {
    hide Chained, Fits, BytesOk, Holds, LastEnd;
    var s' := StepMovePayHead(s);
    var zone, e := s.cfg.zone, s.h.retiring[0];
    var top := s.h.ph + zone;
    assert Published(s) == [e] + s.h.flight && Published(s') == s.h.flight;
    assert Flow(s) == [e] + Flow(s') == Published(s) + PendingEntry(s);
    ChainedPrefix(zone, s.h.ph, top, Published(s), PendingEntry(s));
    ChainedTail(zone, s.h.ph, top, e, Flow(s'));
    ChainedTail(zone, s.h.ph, top, e, s.h.flight);
    LastEndBounds(zone, s'.h.ph, s'.h.ph + zone, Flow(s'));
    LastEndBounds(zone, s'.h.ph, s'.h.ph + zone, s.h.flight);
    BytesTail(s.arena, zone, e, s.h.flight);
    LastEndTail(s.h.ph, e, Flow(s'));
    LastEndTail(s.h.ph, e, s.h.flight);
  }

  lemma MovePayHeadKeepsInv(s: Chan)
    requires Inv(s) && Exact(s)
    ensures Inv(StepMovePayHead(s))
  {
    hide DescsOk, SlotHolds, ArenaOk, Holds, Msgs;
    if s.cons.HeadMoved? {
      MovePayHeadKeepsArena(s);
      var s' := StepMovePayHead(s);
      var e := s.h.retiring[0];
      WordAdd(e.off, |e.msg.payload|);
      assert Published(s) == [e] + s.h.flight && Published(s') == s.h.flight;
      MsgsCons(e, s.h.flight);
      assert s'.delivered == s.delivered + [e.msg];
      HandOver(s.delivered, e.msg, Msgs(s.h.flight));
    }
  }

  lemma HandOver(done: seq<Msg>, m: Msg, rest: seq<Msg>)
    ensures done + ([m] + rest) == done + [m] + rest
  {
  }

  lemma StepKeepsInv(s: Chan, e: Event)
    requires Inv(s) && Exact(s)
    ensures Inv(Step(s, e))
  {
    match e
    case Offer(m) => OfferKeepsInv(s, m);
    case Reserve => ReserveKeepsInv(s);
    case CopyPayload => CopyPayloadKeepsInv(s);
    case WriteDesc => WriteDescKeepsInv(s);
    case MovePayTail => MovePayTailKeepsInv(s);
    case MoveRingTail => MoveRingTailKeepsInv(s);
    case SeeEntry => SeeEntryKeepsInv(s);
    case ReadDesc => ReadDescKeepsInv(s);
    case ReadPayload => ReadPayloadKeepsInv(s);
    case MoveRingHead => MoveRingHeadKeepsInv(s);
    case MovePayHead => MovePayHeadKeepsInv(s);
  }

  // ---- Whole runs ----

  lemma FreshIsInv(s: Chan)
    requires Fresh(s)
    ensures Inv(s) && Exact(s)
  {
    assert Flow(s) == [] && Published(s) == [];
    assert Msgs(Published(s)) == [];
  }

  /** The counters stay where both sides agree on slots, all along the run. */
  ghost predicate ExactRun(s: Chan, es: seq<Event>)
    requires s.cfg.Valid() && |s.ring| == s.cfg.entries
    decreases |es|
  {
    Exact(s) && (es != [] ==> ExactRun(Step(s, es[0]), es[1..]))
  }

  lemma {:induction false} RunKeepsInv(s: Chan, es: seq<Event>)
    requires Inv(s) && ExactRun(s, es)
    ensures Inv(Run(s, es))
    decreases |es|
  {
    if es != [] {
      StepKeepsInv(s, es[0]);
      RunKeepsInv(Step(s, es[0]), es[1..]);
    }
  }

  /**
   Every interleaving is a FIFO: what the consumer has delivered, followed by what it is retiring
   and what is still in the ring, is exactly what the producer had accepted, payloads included;
   and the session check never fires.
   */
  lemma ChannelIsFifo(s: Chan, es: seq<Event>)
    requires Fresh(s) && ExactRun(s, es)
    ensures
      var t := Run(s, es);
      t.h.accepted == t.delivered + Msgs(Published(t)) && !t.desynced
      && |t.h.flight| <= t.cfg.entries
  {
    FreshIsInv(s);
    RunKeepsInv(s, es);
  }

  /** The payload counters stay a zone short of 2^32, all along the run. */
  ghost predicate PayloadsBelowWrap(s: Chan, es: seq<Event>)
    requires s.cfg.Valid() && |s.ring| == s.cfg.entries
    decreases |es|
  {
    s.h.pt + s.cfg.zone <= U32 && (es != [] ==> PayloadsBelowWrap(Step(s, es[0]), es[1..]))
  }

  /** A kernel producer whose sizes divide 2^32, or wrap no counter, never leaves the exact regime. */
  lemma {:induction false} DividingRingIsExact(s: Chan, es: seq<Event>)
    requires s.cfg.Valid() && |s.ring| == s.cfg.entries
    requires s.cfg.side == Kernel && U32 % s.cfg.entries == 0
    requires U32 % s.cfg.zone == 0 || PayloadsBelowWrap(s, es)
    ensures ExactRun(s, es)
    decreases |es|
  {
    hide Step;
    if es != [] {
      DividingRingIsExact(Step(s, es[0]), es[1..]);
    }
  }

  /**
   When the ring size divides 2^32 (the default 128 does), the kernel's transport ring stays a bounded
   FIFO across any number of wraps of its 32-bit words, with any zone size while the payload counters
   are below their own wrap, and for ever when the zone divides 2^32 too (the default 4 MiB does).
   */
  lemma {:induction false} TransportRingSurvivesWrap(s: Chan, es: seq<Event>)
    requires Fresh(s) && s.cfg.side == Kernel && U32 % s.cfg.entries == 0
    requires U32 % s.cfg.zone == 0 || PayloadsBelowWrap(s, es)
    ensures
      var t := Run(s, es);
      t.h.accepted == t.delivered + Msgs(Published(t)) && !t.desynced
      && |t.h.flight| <= t.cfg.entries
  {
    DividingRingIsExact(s, es);
    ChannelIsFifo(s, es);
  }

  // ---- What the invariant says about a reachable state ----

  /** Payloads in the zone never straddle its end and occupy pairwise disjoint byte ranges. */
  lemma PayloadsAreDisjoint(s: Chan, i: nat, j: nat)
    requires Inv(s) && i < j < |Flow(s)|
    requires |Flow(s)[i].msg.payload| > 0 && |Flow(s)[j].msg.payload| > 0
    ensures
      var zone, e, f := s.cfg.zone, Flow(s)[i], Flow(s)[j];
      && e.off % zone + |e.msg.payload| <= zone
      && f.off % zone + |f.msg.payload| <= zone
      && (|| e.off % zone + |e.msg.payload| <= f.off % zone
          || f.off % zone + |f.msg.payload| <= e.off % zone)
  {
    hide DescsOk, BytesOk, Msgs, LastEnd;
    assert Flow(s)[i].End() <= Flow(s)[j].off;
    DisjointInZone(s.cfg.zone, Flow(s)[i], Flow(s)[j]);
  }

  /** With nothing published and no producer in mid-publication the arena is drained. */
  lemma DrainedHeadEqualsTail(s: Chan)
    requires Inv(s) && Published(s) == [] && !s.prod.TailMoved?
    ensures s.payHead == s.payTail && s.ringHead == s.ringTail
  {
    hide DescsOk, BytesOk, Msgs, Chained;
  }

  /** The producer sees a full ring exactly when every slot holds an undrained descriptor. */
  lemma RingFullIsExact(s: Chan)
    requires Inv(s) && Exact(s)
    ensures RingFull(s) <==> |s.h.flight| == s.cfg.entries
  {
    hide DescsOk, BytesOk, Msgs, Chained, ArenaOk;
    WordDistance(s.h.rh, s.h.rt);
  }

  /**
   The daemon's full test subtracts without wrapping: in any state it is right exactly when the ring
   is not full or the head word has not overtaken the tail word. The kernel's is always right.
   */
  lemma FullTestAcrossWrap(s: Chan)
    requires Inv(s)
    ensures s.cfg.side == Kernel ==> (RingFull(s) <==> |s.h.flight| == s.cfg.entries)
    ensures s.cfg.side == Daemon ==>
      ((RingFull(s) <==> |s.h.flight| == s.cfg.entries)
       <==> (|s.h.flight| < s.cfg.entries || s.ringHead <= s.ringTail))
  {
    hide DescsOk, BytesOk, Msgs, Chained, ArenaOk;
    WordDistance(s.h.rh, s.h.rt);
  }

  /** n copies of an empty message waiting in a ring of eight, with the producer about to publish one more. */
  function OverrunEve(cfg: Config, m: Msg): Chan
    requires cfg.entries == 8
  {
    var d := DescOf(cfg, m, 0);
    var e := Entry(0, m);
    Chan(cfg, seq(8, _ => d), seq(cfg.zone, _ => 0), U32 - 8, U32 - 1, 0, 0, TailMoved(m, 0), Waiting, [],
         false, History(U32 - 8, U32 - 1, 0, 0, 0, [], seq(7, _ => e), seq(7, _ => m)))
  }

  /**
   The failing side of the daemon's test: from a state that keeps the invariant and is still exact, the
   step that takes the ring tail to 2^32 fills the ring, the test then denies it, and one more message
   is let in.
   */
  lemma {:induction false} DaemonOverrunsAtWrap(cfg: Config, m: Msg)
    requires cfg.side == Daemon && cfg.entries == 8 && m.payload == []
    ensures
      var s := OverrunEve(cfg, m);
      && Inv(s) && Exact(s)
      && var t := Step(s, MoveRingTail);
         && Inv(t) && |t.h.flight| == cfg.entries && t.ringTail == 0 && !RingFull(t)
         && StepOffer(t, m).prod == RingChecked(m)
  {
    var s := OverrunEve(cfg, m);
    EveIsInv(cfg, m);
    MoveRingTailKeepsInv(s);
    hide Inv;
    assert Word(s.ringTail + 1) == 0;
  }

  lemma EveIsInv(cfg: Config, m: Msg)
    requires cfg.side == Daemon && cfg.entries == 8 && m.payload == []
    ensures Inv(OverrunEve(cfg, m)) && Exact(OverrunEve(cfg, m))
  {
    EveRing(cfg, m);
    EveArena(cfg, m);
    hide RingOk, ArenaOk, Holds;
    var s := OverrunEve(cfg, m);
    assert Msgs(s.h.flight) == s.h.accepted;
    assert Published(s) == s.h.flight;
    assert Holds(s.arena, cfg.zone, Entry(0, m)) by { EmptyIsHeld(s.arena, cfg.zone, m); }
  }

  lemma EmptyIsHeld(arena: seq<byte>, zone: ZoneSize, m: Msg)
    requires m.payload == []
    ensures Holds(arena, zone, Entry(0, m)) && Fits(zone, Entry(0, m))
  {
  }

  lemma EveArena(cfg: Config, m: Msg)
    requires cfg.side == Daemon && cfg.entries == 8 && m.payload == []
    ensures ArenaOk(OverrunEve(cfg, m))
  {
    hide Fits, Holds;
    var s := OverrunEve(cfg, m);
    var e := Entry(0, m);
    EmptyIsHeld(s.arena, cfg.zone, m);
    assert Published(s) == seq(7, _ => e);
    assert Flow(s) == seq(8, _ => e);
  }

  lemma EveRing(cfg: Config, m: Msg)
    requires cfg.side == Daemon && cfg.entries == 8
    ensures RingOk(OverrunEve(cfg, m))
  {
  }

  // ---- The consumer alone ----

  function TakeOne(s: Chan): (t: Chan)
    requires s.cfg.Valid() && |s.ring| == s.cfg.entries
    ensures t.cfg == s.cfg && |t.ring| == |s.ring|
  {
    hide View, Word;
    StepMovePayHead(StepMoveRingHead(StepTake(s)))
  }

  /** One round of the consumer delivers the oldest message in flight and nothing else. */
  lemma TakeOneDelivers(s: Chan)
    requires Inv(s) && Exact(s) && s.cons.Waiting? && s.h.flight != []
    ensures
      var t := TakeOne(s);
      && Inv(t) && Exact(t) && t.cons.Waiting?
      && t.delivered == s.delivered + [s.h.flight[0].msg]
      && t.h.flight == s.h.flight[1..] && t.h.accepted == s.h.accepted
      && t.prod == s.prod && t.cfg == s.cfg
  {
    hide DescsOk, SlotHolds, BytesOk, Msgs, ArenaOk;
    WordDistance(s.h.rh, s.h.rt);
    assert s.ringHead != s.ringTail;
    TakeReadsOldest(s);
    var s1 := StepTake(s);
    MoveRingHeadKeepsInv(s1);
    MovePayHeadKeepsInv(StepMoveRingHead(s1));
  }

  /** n rounds of the consumer. */
  function DrainEvents(n: nat): seq<Event> {
    if n == 0 then [] else [SeeEntry, ReadDesc, ReadPayload, MoveRingHead, MovePayHead] + DrainEvents(n - 1)
  }

  lemma RunOneRound(s: Chan, rest: seq<Event>)
    requires s.cfg.Valid() && |s.ring| == s.cfg.entries
    ensures Run(s, [SeeEntry, ReadDesc, ReadPayload, MoveRingHead, MovePayHead] + rest) == Run(TakeOne(s), rest)
  {
    hide Step, StepSeeEntry, StepReadDesc, StepReadPayload, StepMoveRingHead, StepMovePayHead, Run;
    StepsByName(s);
    RunOneStep(s, SeeEntry, [ReadDesc, ReadPayload, MoveRingHead, MovePayHead] + rest);
    RunOneStep(StepSeeEntry(s), ReadDesc, [ReadPayload, MoveRingHead, MovePayHead] + rest);
    RunOneStep(StepReadDesc(StepSeeEntry(s)), ReadPayload, [MoveRingHead, MovePayHead] + rest);
    RunOneStep(StepTake(s), MoveRingHead, [MovePayHead] + rest);
    RunOneStep(StepMoveRingHead(StepTake(s)), MovePayHead, rest);
    assert [SeeEntry, ReadDesc, ReadPayload, MoveRingHead, MovePayHead] + rest
        == [SeeEntry] + ([ReadDesc, ReadPayload, MoveRingHead, MovePayHead] + rest);
    assert [ReadDesc, ReadPayload, MoveRingHead, MovePayHead] + rest
        == [ReadDesc] + ([ReadPayload, MoveRingHead, MovePayHead] + rest);
    assert [ReadPayload, MoveRingHead, MovePayHead] + rest == [ReadPayload] + ([MoveRingHead, MovePayHead] + rest);
    assert [MoveRingHead, MovePayHead] + rest == [MoveRingHead] + ([MovePayHead] + rest);
  }

  lemma StepsByName(s: Chan)
    requires s.cfg.Valid() && |s.ring| == s.cfg.entries
    ensures StepSeeEntry(s).cfg == s.cfg && |StepSeeEntry(s).ring| == |s.ring|
    ensures StepTake(s).cfg == s.cfg && |StepTake(s).ring| == |s.ring|
    ensures
      var u := StepReadDesc(StepSeeEntry(s));
      u.cfg == s.cfg && |u.ring| == |s.ring|
    ensures
      var u := StepMoveRingHead(StepTake(s));
      u.cfg == s.cfg && |u.ring| == |s.ring|
    ensures
      && Step(s, SeeEntry) == StepSeeEntry(s)
      && Step(StepSeeEntry(s), ReadDesc) == StepReadDesc(StepSeeEntry(s))
      && Step(StepReadDesc(StepSeeEntry(s)), ReadPayload) == StepTake(s)
      && Step(StepTake(s), MoveRingHead) == StepMoveRingHead(StepTake(s))
      && Step(StepMoveRingHead(StepTake(s)), MovePayHead) == TakeOne(s)
  {
    hide View, Word;
  }

  lemma RunOneStep(s: Chan, e: Event, rest: seq<Event>)
    requires s.cfg.Valid() && |s.ring| == s.cfg.entries
    ensures Run(s, [e] + rest) == Run(Step(s, e), rest)
  {
    assert ([e] + rest)[1..] == rest;
  }

  /** A consumer left alone for as many rounds as there are messages delivers all that was accepted. */
  lemma {:induction false} DrainDeliversEverything(s: Chan)
    requires Inv(s) && Exact(s) && s.cons.Waiting?
    ensures
      var t := Run(s, DrainEvents(|s.h.flight|));
      && Inv(t) && t.cons.Waiting? && t.h.flight == []
      && t.delivered == s.h.accepted == s.delivered + Msgs(s.h.flight)
    decreases |s.h.flight|
  {
    hide WordsOk, DescsOk, SlotHolds, ArenaOk, ProducerOk, TakeOne, Exact;
    assert Published(s) == s.h.flight;
    if s.h.flight != [] {
      TakeOneDelivers(s);
      RunOneRound(s, DrainEvents(|s.h.flight| - 1));
      DrainDeliversEverything(TakeOne(s));
    }
  }
}
