/** The bridge operations as they run on the shared memory, refining the channel model. */
module Channel {
  import opened Words
  import opened Arena
  import opened ChannelModel
  import opened ChannelProofs

  /** The six producer events of one accepted message, in program order. */
  function Publish(s: Chan, m: Msg): (t: Chan)
    requires s.cfg.Valid() && |s.ring| == s.cfg.entries
    ensures t.cfg == s.cfg && |t.ring| == |s.ring|
  {
    hide Splice, Word, ReserveWords, RingFull, ReserveDaemon;
    StepMoveRingTail(StepMovePayTail(StepWriteDesc(StepCopyPayload(StepReserve(StepOffer(s, m))))))
  }

  /** The guards of the code: the payload is small enough, a slot is free and the zone has room. */
  predicate Accepts(s: Chan, m: Msg) {
    |m.payload| <= MAX_PAYLOAD && !RingFull(s) && ReserveWords(s, |m.payload|).Some?
  }

  /**
   Small enough, a slot free, and room in the zone for its bytes: before the end of it or from the start of
   the next lap, within one zone of what is undrained, and for the kernel before the next multiple of 2^32.
   */
  ghost predicate HasRoom(s: Chan, m: Msg) {
    var len := |m.payload|;
    var place := Place(s.h.pt, s.cfg.zone, len);
    && len <= MAX_PAYLOAD && |s.h.flight| < s.cfg.entries
    && (len == 0
        || (place + len <= s.h.ph + s.cfg.zone && (s.cfg.side == Daemon || place / U32 == s.h.ph / U32)))
  }

  lemma ReservesIffRoom(s: Chan, len: nat)
    requires Inv(s) && Exact(s) && 0 < len <= MAX_PAYLOAD
    ensures
      var place := Place(s.h.pt, s.cfg.zone, len);
      ReserveWords(s, len).Some?
      <==> place + len <= s.h.ph + s.cfg.zone && (s.cfg.side == Daemon || place / U32 == s.h.ph / U32)
  {
    hide RingOk, DescsOk, BytesOk, Chained, Msgs, ProducerOk, ConsumerOk, ReserveKernel, ReserveDaemon, Place;
    if s.cfg.side == Kernel {
      KernelReservesFirstRoom(s.h.ph, s.h.pt, s.cfg.zone, len);
    } else {
      assert s.payHead == s.h.ph && s.payTail == s.h.pt;
      DaemonReservesFirstRoom(s.h.ph, s.h.pt, s.cfg.zone, len);
      PlaceIsFirstRoom(s.h.ph, s.h.pt, s.cfg.zone, len);
    }
  }

  /** The guards accept exactly what there is room for, whatever is undrained. */
  lemma {:induction false} AcceptsIffRoom(s: Chan, m: Msg)
    requires Inv(s) && Exact(s)
    ensures Accepts(s, m) <==> HasRoom(s, m)
  {
    RingFullIsExact(s);
    hide Inv, Exact, ReserveKernel, ReserveDaemon, RingFull, Place;
    if 0 < |m.payload| <= MAX_PAYLOAD {
      ReservesIffRoom(s, |m.payload|);
    }
  }

  /** Short of 2^32 that is any room at all. */
  lemma {:induction false} AcceptsIffAnyRoom(s: Chan, m: Msg)
    requires Inv(s) && Exact(s) && s.h.pt + s.cfg.zone < U32
    ensures
      Accepts(s, m)
      <==> && |m.payload| <= MAX_PAYLOAD && |s.h.flight| < s.cfg.entries
           && (m.payload == [] || exists off: nat :: RoomAt(s.h.ph, s.h.pt, s.cfg.zone, |m.payload|, off))
  {
    AcceptsIffRoom(s, m);
    assert s.h.ph <= s.h.pt <= s.h.ph + s.cfg.zone;
    hide Inv, Exact, Accepts, RoomAt, Place, FirstRoom;
    if m.payload != [] {
      PlaceIsFirstRoom(s.h.ph, s.h.pt, s.cfg.zone, |m.payload|);
      PlaceIsNear(s.h.pt, s.cfg.zone, |m.payload|);
      SameLap(s.h.ph, Place(s.h.pt, s.cfg.zone, |m.payload|));
    }
  }

  lemma SameLap(x: nat, y: nat)
    requires x < U32 && y < U32
    ensures x / U32 == y / U32
  {
  }

  lemma PlaceIsNear(tail: nat, zone: ZoneSize, len: nat)
    ensures tail <= Place(tail, zone, len) <= tail + zone
  {
    assert 0 <= tail % zone < zone;
  }

  /** A reservation leaves room for the payload before the end of the zone. */
  lemma ReservedOffsetIsInZone(s: Chan, m: Msg)
    requires Inv(s) && Exact(s) && Accepts(s, m)
    ensures
      var off := ReserveWords(s, |m.payload|).value;
      off < U32 && off % s.cfg.zone + |m.payload| <= s.cfg.zone == |s.arena|
  {
    hide DescsOk, BytesOk, Chained, Msgs, RingFull;
    ReserveWordsIsSound(s, |m.payload|);
    ReservationFits(s.h.ph, s.h.pt, s.cfg.zone, |m.payload|);
    var off := ReserveDaemon(s.h.ph, s.h.pt, s.cfg.zone, |m.payload|).value;
    hide ReserveWords, ReserveDaemon;
    if |m.payload| > 0 {
      WordKeepsSlot(off, s.cfg.zone);
    }
  }

  lemma ShapeOfInv(s: Chan)
    requires Inv(s)
    ensures s.cfg.Valid() && |s.ring| == s.cfg.entries && |s.arena| == s.cfg.zone
  {
  }

  /** Accepting an offer changes nothing the reservation looks at. */
  lemma OfferedReservesAlike(s: Chan, m: Msg)
    requires s.prod.Idle? && Accepts(s, m)
    ensures StepOffer(s, m) == s.(prod := RingChecked(m))
    ensures ReserveWords(s.(prod := RingChecked(m)), |m.payload|) == ReserveWords(s, |m.payload|)
  {
  }

  /** The state after a publication at a given offset. */
  function Loaded(s: Chan, m: Msg, off: u32): Chan
    requires s.cfg.Valid() && |s.ring| == s.cfg.entries
  {
    var abs := StepReserve(StepOffer(s, m)).h.poff;
    s.(ring := s.ring[s.ringTail % s.cfg.entries := DescOf(s.cfg, m, off)],
       arena := Splice(s.arena, off % s.cfg.zone, m.payload),
       payTail := Word(off + |m.payload|), ringTail := Word(s.ringTail + 1),
       h := s.h.(poff := abs, pt := abs + |m.payload|, rt := s.h.rt + 1, flight := s.h.flight + [Entry(abs, m)],
                 accepted := s.h.accepted + [m]))
  }

  lemma LoadedWrites(s: Chan, m: Msg, off: u32)
    requires s.cfg.Valid() && |s.ring| == s.cfg.entries && s.prod.Idle?
    ensures
      var t := Loaded(s, m, off);
      && t.ring == s.ring[s.ringTail % s.cfg.entries := DescOf(s.cfg, m, off)]
      && t.arena == Splice(s.arena, off % s.cfg.zone, m.payload)
      && t.payTail == Word(off + |m.payload|) && t.ringTail == Word(s.ringTail + 1)
      && t.payHead == s.payHead && t.ringHead == s.ringHead
      && t.cfg == s.cfg && t.prod.Idle? && t.cons == s.cons && t.delivered == s.delivered
      && (exists a :: t.h.flight == s.h.flight + [Entry(a, m)])
      && t.h.accepted == s.h.accepted + [m]
  {
    hide Splice, Word, DescOf, StepReserve, StepOffer;
    assert Loaded(s, m, off).h.flight == s.h.flight + [Entry(StepReserve(StepOffer(s, m)).h.poff, m)];
  }

  lemma PublishIsLoaded(s: Chan, m: Msg, off: u32)
    requires s.cfg.Valid() && |s.ring| == s.cfg.entries
    requires s.prod.Idle? && Accepts(s, m) && ReserveWords(s, |m.payload|) == Some(off)
    ensures Publish(s, m) == Loaded(s, m, off)
  {
    OfferedReservesAlike(s, m);
    hide Splice, Word, ReserveWords, RingFull, ReserveDaemon;
    var s2 := StepReserve(StepOffer(s, m));
    assert s2 == s.(prod := Reserved(m, off), h := s.h.(poff := s2.h.poff));
  }

  /** What one publication writes to the shared memory, and all it writes. */
  lemma PublishWrites(s: Chan, m: Msg)
    requires Inv(s) && Exact(s) && s.prod.Idle? && Accepts(s, m)
    ensures
      var t := Publish(s, m);
      var off := ReserveWords(s, |m.payload|).value;
      && off < U32
      && t.ring == s.ring[s.ringTail % s.cfg.entries := DescOf(s.cfg, m, off)]
      && t.arena == Splice(s.arena, off % s.cfg.zone, m.payload)
      && t.payTail == Word(off + |m.payload|) && t.ringTail == Word(s.ringTail + 1)
      && t.payHead == s.payHead && t.ringHead == s.ringHead
      && t.cfg == s.cfg && t.prod.Idle? && t.cons == s.cons && t.delivered == s.delivered
      && (exists a :: t.h.flight == s.h.flight + [Entry(a, m)])
      && t.h.accepted == s.h.accepted + [m]
  {
    ReservedOffsetIsInZone(s, m);
    ShapeOfInv(s);
    var off := ReserveWords(s, |m.payload|).value;
    PublishIsLoaded(s, m, off);
    LoadedWrites(s, m, off);
    hide Inv, Exact, ReserveWords, RingFull, Splice, Word, Accepts, Publish, Loaded, DescOf;
  }

  lemma PublishKeepsInv(s: Chan, m: Msg)
    requires Inv(s) && Exact(s) && s.prod.Idle? && Accepts(s, m)
    ensures Inv(Publish(s, m))
  {
    hide WordsOk, ArenaOk, ProducerOk, ConsumerOk, DescsOk, SlotHolds, ReserveWords, RingFull, Splice, Msgs;
    OfferKeepsInv(s, m);
    var s1 := StepOffer(s, m);
    ReserveKeepsInv(s1);
    var s2 := StepReserve(s1);
    CopyPayloadKeepsInv(s2);
    var s3 := StepCopyPayload(s2);
    WriteDescKeepsInv(s3);
    var s4 := StepWriteDesc(s3);
    MovePayTailKeepsInv(s4);
    MoveRingTailKeepsInv(StepMovePayTail(s4));
  }

  /** An offer that fits is queued behind everything in flight. */
  lemma PublishAppends(s: Chan, m: Msg)
    requires Inv(s) && Exact(s) && s.prod.Idle? && Accepts(s, m)
    ensures Inv(Publish(s, m))
    ensures Msgs(Publish(s, m).h.flight) == Msgs(s.h.flight) + [m]
  {
    PublishKeepsInv(s, m);
    PublishWrites(s, m);
    hide Inv, Exact, Accepts, Publish;
    var a :| Publish(s, m).h.flight == s.h.flight + [Entry(a, m)];
  }

  /** The oldest descriptor addresses, inside the zone, the payload of the oldest message. */
  lemma OldestDescriptorReadsMessage(s: Chan)
    requires Inv(s) && Exact(s) && s.cons.Waiting? && s.ringHead != s.ringTail
    ensures s.h.flight != []
    ensures
      var d := s.ring[s.ringHead % s.cfg.entries];
      var p := d.payloadOffset % s.cfg.zone;
      && d.session == s.cfg.session && p + d.payloadLen <= |s.arena|
      && Msg(d.opcode, d.requestId, d.generation, s.arena[p..p + d.payloadLen]) == s.h.flight[0].msg
  {
    hide WordsOk, DescsOk, SlotHolds, BytesOk, Chained, ProducerOk, Msgs, LastEnd;
    TakeReadsOldest(s);
    var e := s.h.flight[0];
    FlightBelowTail(s, 0);
    FlightFits(s);
    WordKeepsSlot(e.off, s.cfg.zone);
  }

  /** What one consumer round writes: the two head words, and nothing else of the shared memory. */
  lemma TakeOneWrites(s: Chan)
    requires s.cfg.Valid() && |s.ring| == s.cfg.entries
    requires s.cons.Waiting? && s.ringHead != s.ringTail && s.h.flight != []
    requires s.ring[s.ringHead % s.cfg.entries].session == s.cfg.session
    ensures
      var t := TakeOne(s);
      var d := s.ring[s.ringHead % s.cfg.entries];
      && t.ring == s.ring && t.arena == s.arena
      && t.ringHead == Word(s.ringHead + 1) && t.payHead == Word(d.payloadOffset + d.payloadLen)
      && t.ringTail == s.ringTail && t.payTail == s.payTail
      && t.cfg == s.cfg && t.h.rt == s.h.rt && t.h.pt == s.h.pt
  {
    hide View, Word;
    var s1 := StepTake(s);
    assert s1.cons.Took? && s1.cons.desc == s.ring[s.ringHead % s.cfg.entries];
    var s2 := StepMoveRingHead(s1);
    assert s2.cons.HeadMoved? && s2.cons.desc == s1.cons.desc && s2.h.retiring != [];
  }

  lemma FlightFits(s: Chan)
    requires ArenaOk(s) && s.h.flight != []
    ensures Fits(s.cfg.zone, s.h.flight[0])
  {
    hide Fits, BytesOk;
    assert Flow(s)[|s.h.retiring|] == s.h.flight[0];
  }

  lemma CopyIsSplice(before: seq<byte>, after: seq<byte>, p: nat, data: seq<byte>)
    requires CopiedTo(before, after, p, data)
    ensures after == Splice(before, p, data)
  {
  }

  class BridgeChannel {
    const cfg: Config
    const ring: array<Desc>
    const arena: array<byte>
    var ringHead: u32
    var ringTail: u32
    var payHead: u32
    var payTail: u32
    var pending: seq<Msg>
    ghost var model: Chan

    /** The memory is a reachable state of the model in which neither side is in mid-operation. */
    ghost predicate Valid()
      reads this, ring, arena
    {
      && Inv(model) && model.cfg == cfg && model.prod.Idle? && model.cons.Waiting?
      && model.ring == ring[..] && model.arena == arena[..]
      && model.ringHead == ringHead && model.ringTail == ringTail
      && model.payHead == payHead && model.payTail == payTail
    }

    /** The messages accepted and not yet drained. */
    ghost function Queue(): seq<Msg>
      reads this
    {
      Msgs(model.h.flight)
    }

    /** The setup ioctl: a zeroed control page over buffers whose contents do not matter. */
    constructor (cfg: Config, desc: Desc)
      requires cfg.Valid()
      ensures Valid() && Queue() == [] && pending == [] && this.cfg == cfg
      ensures Exact(model)
      ensures fresh(ring) && fresh(arena)
    {
      this.cfg := cfg;
      ring := new Desc[cfg.entries](_ => desc);
      arena := new byte[cfg.zone](_ => 0);
      ringHead, ringTail, payHead, payTail := 0, 0, 0, 0;
      pending := [];
      new;
      model := Chan(cfg, ring[..], arena[..], 0, 0, 0, 0, Idle, Waiting, [], false,
                    History(0, 0, 0, 0, 0, [], [], []));
      FreshIsInv(model);
    }

    /** The checks before the first store. */
    method Reserve(m: Msg) returns (accepted: bool, off: nat)
      requires Valid() && Exact(model)
      ensures accepted <==> HasRoom(model, m)
      ensures accepted ==> Accepts(model, m) && ReserveWords(model, |m.payload|) == Some(off)
    {
      AcceptsIffRoom(model, m);
      hide Inv, Exact, FullTest, ReserveTest, HasRoom;
      if |m.payload| > MAX_PAYLOAD || FullTest(cfg, ringHead, ringTail) {
        return false, 0;
      }
      var reservation := ReserveTest(cfg, payHead, payTail, |m.payload|);
      if reservation.None? {
        return false, 0;
      }
      return true, reservation.value;
    }

    /**
     queue_transport_locked and _submit_ring_entry: check the ring, reserve payload room, copy the
     payload, write the descriptor, then publish the payload tail and the ring tail.
     */
    method Submit(m: Msg) returns (accepted: bool)
      requires Valid() && Exact(model)
      modifies this`ringTail, this`payTail, this`model, ring, arena
      ensures Valid()
      ensures accepted <==> old(HasRoom(model, m))
      ensures Queue() == if accepted then old(Queue()) + [m] else old(Queue())
      ensures model == if accepted then Publish(old(model), m) else old(model)
    {
      hide Inv, Exact, Splice, Publish, FullTest, ReserveTest, Msgs, CopiedTo, HasRoom, Accepts, Word;
      var off;
      accepted, off := Reserve(m);
      if !accepted {
        return;
      }
      ShapeOfInv(model);
      ReservedOffsetIsInZone(model, m);
      PublishAppends(model, m);
      PublishWrites(model, m);
      CopyInto(arena, off % cfg.zone, m.payload);
      CopyIsSplice(old(arena[..]), arena[..], off % cfg.zone, m.payload);
      ring[ringTail % cfg.entries] := DescOf(cfg, m, off);
      payTail := Word(off + |m.payload|);
      ringTail := Word(ringTail + 1);
      model := Publish(model, m);
    }

    /** One iteration of the drain loops: the oldest message, then the ring head, then the payload head. */
    method DrainOne() returns (ok: bool)
      requires Valid() && Exact(model) && ringHead != ringTail
      modifies this`ringHead, this`payHead, this`pending, this`model
      ensures Valid() && Exact(model) && ok
      ensures old(Queue()) != []
      ensures Queue() == old(Queue())[1..] && pending == old(pending) + [old(Queue())[0]]
      ensures model == TakeOne(old(model))
    {
      hide Inv, Exact, TakeOne, Msgs, Word;
      ShapeOfInv(model);
      OldestDescriptorReadsMessage(model);
      TakeOneWrites(model);
      TakeOneDelivers(model);
      var desc := ring[ringHead % cfg.entries];
      if desc.session != cfg.session {
        assert false;
        return false;
      }
      var p := desc.payloadOffset % cfg.zone;
      var payload := arena[p..p + desc.payloadLen];
      ringHead := Word(ringHead + 1);
      payHead := Word(desc.payloadOffset + desc.payloadLen);
      pending := pending + [Msg(desc.opcode, desc.requestId, desc.generation, payload)];
      model := TakeOne(model);
      ok := true;
    }

    /** _drain_transport_ring and the kernel's drain loops: until the two ring words are equal. */
    method Drain() returns (ok: bool)
      requires Valid() && Exact(model)
      modifies this`ringHead, this`payHead, this`pending, this`model
      ensures Valid() && ok
      ensures Queue() == [] && pending == old(pending) + old(Queue())
      ensures model == Run(old(model), DrainEvents(|old(Queue())|))
    {
      hide ArenaOk, ProducerOk, ConsumerOk, DescsOk, Exact, TakeOne, Word;
      ghost var taken := 0;
      ok := true;
      while ringHead != ringTail
        invariant Valid() && Exact(model) && ok
        invariant taken + |Queue()| == |old(Queue())|
        invariant Queue() == old(Queue())[taken..] && pending == old(pending) + old(Queue())[..taken]
        invariant Run(model, DrainEvents(|Queue()|)) == Run(old(model), DrainEvents(|old(Queue())|))
        decreases |Queue()|
      {
        WordDistance(model.h.rh, model.h.rt);
        RunOneRound(model, DrainEvents(|Queue()| - 1));
        ok := DrainOne();
        taken := taken + 1;
      }
      WordDistance(model.h.rh, model.h.rt);
    }
  }
}
