/** The submission of an entry as it runs on the shared memory, refining the lock-step machine. */
module SubmitEntries {
  import opened Words
  import opened Arena
  import opened ChannelModel
  import opened ChannelProofs
  import opened Channel
  import opened LockStep

  datatype Outcome = Sent | TooLarge | RingIsFull | NoRoom | OffsetTooLarge

  class SubmitRing {
    const cfg: Config
    const ring: array<Desc>
    const arena: array<byte>
    var ringHead: u32
    var ringTail: u32
    var payHead: u32
    var payTail: u32
    /** What the kernel's drain loop has been given. */
    var handled: seq<Msg>
    ghost var model: Chan

    ghost predicate Mirrors(s: Chan)
      reads this`ringHead, this`ringTail, this`payHead, this`payTail, this`handled, ring, arena
    {
      && s.cfg == cfg && s.ring == ring[..] && s.arena == arena[..]
      && s.ringHead == ringHead && s.ringTail == ringTail && s.payHead == payHead && s.payTail == payTail
      && s.delivered == handled
    }

    ghost predicate Valid()
      reads this, ring, arena
    {
      Quiet(model) && Mirrors(model)
    }

    constructor (cfg: Config, desc: Desc)
      requires cfg.Valid() && cfg.side == Daemon
      ensures Valid() && this.cfg == cfg && handled == [] && payTail == 0 && fresh(ring) && fresh(arena)
    {
      this.cfg := cfg;
      ring := new Desc[cfg.entries](_ => desc);
      arena := new byte[cfg.zone](_ => 0);
      ringHead, ringTail, payHead, payTail := 0, 0, 0, 0;
      handled := [];
      new;
      model := Chan(cfg, ring[..], arena[..], 0, 0, 0, 0, Idle, Waiting, [], false,
                    History(0, 0, 0, 0, 0, [], [], []));
    }

    /** The checks before the first store. */
    method Reserve(m: Msg) returns (outcome: Outcome, off: nat)
      requires Valid()
      ensures outcome.Sent? || outcome.TooLarge? || outcome.NoRoom?
      ensures outcome.TooLarge? <==> |m.payload| > MAX_PAYLOAD
      ensures
        var r := ReserveDaemon(payTail, payTail, cfg.zone, |m.payload|);
        && (outcome.NoRoom? <==> |m.payload| <= MAX_PAYLOAD && r.None?)
        && (outcome.Sent? ==> r == Some(off))
    {
      QuietIsNotFull(model);
      hide ReserveDaemon;
      outcome, off := TooLarge, 0;
      if |m.payload| > MAX_PAYLOAD {
        return;
      }
      outcome := RingIsFull;
      if FullTest(cfg, ringHead, ringTail) {
        assert false;
        return;
      }
      var reservation := ReserveDaemon(payHead, payTail, cfg.zone, |m.payload|);
      if reservation.None? {
        return NoRoom, 0;
      }
      outcome, off := Sent, reservation.value;
    }

    /** The descriptor and the two tails, after the payload is in place. */
    method Store(ghost s: Chan, m: Msg, off: u32)
      requires Quiet(s) && Mirrors(s.(arena := Splice(s.arena, off % cfg.zone, m.payload)))
      modifies this`payTail, this`ringTail, ring
      ensures Mirrors(OneInFlight(s, m, off))
    {
      hide Splice, Word, StepReserve, StepOffer;
      ring[ringTail % cfg.entries] := DescOf(cfg, m, off);
      payTail := Word(off + |m.payload|);
      ringTail := Word(ringTail + 1);
    }

    /** The kernel's drain loop, on the one message there is: hand it over, then move the two heads. */
    method Drain(ghost s: Chan, m: Msg, off: u32)
      requires Quiet(s) && Carries(s.cfg.zone, s.payTail, m)
      requires Placement(s.cfg.zone, s.payTail, |m.payload|) == Some(off)
      requires Mirrors(OneInFlight(s, m, off))
      modifies this`ringHead, this`payHead, this`handled
      ensures Mirrors(TakeOne(OneInFlight(s, m, off)))
    {
      ghost var p := OneInFlight(s, m, off);
      TakePublished(s, m);
      WordMoves(s.ringTail);
      PlacementIsReservation(s.cfg.zone, s.payTail, |m.payload|);
      ViewOfWritten(s.arena, off % s.cfg.zone, m.payload);
      hide TakeOne, Placement, ReserveDaemon, Splice, Word, StepReserve, StepOffer;
      while ringHead != ringTail
        invariant Mirrors(if ringHead == ringTail then TakeOne(p) else p)
        decreases if ringHead == ringTail then 0 else 1
      {
        var desc := ring[ringHead % cfg.entries];
        assert desc == DescOf(s.cfg, m, off);
        var at := desc.payloadOffset % cfg.zone;
        var payload := arena[at..at + desc.payloadLen];
        assert payload == m.payload;
        handled := handled + [Msg(desc.opcode, desc.requestId, desc.generation, payload)];
        ringHead := Word(ringHead + 1);
        payHead := Word(desc.payloadOffset + desc.payloadLen);
      }
    }

    method Complete(ghost s: Chan, m: Msg, off: u32)
      requires Quiet(s) && Carries(s.cfg.zone, s.payTail, m)
      requires Placement(s.cfg.zone, s.payTail, |m.payload|) == Some(off)
      requires Mirrors(s.(arena := Splice(s.arena, off % cfg.zone, m.payload)))
      modifies this, ring
      ensures model == Submission(s, m) && Mirrors(model)
    {
      hide Splice, Submission, TakeOne, Placement, Carries, Word, StepReserve, StepOffer, Mirrors, DescOf;
      Store(s, m, off);
      Drain(s, m, off);
      CarriedSubmission(s, m);
      hide OneInFlight;
      model := Submission(s, m);
    }

    /**
     _submit_ring_entry and the drain its ioctl runs: the message is handled before the call returns, or
     the call fails and nothing but bytes of the drained zone has changed. The ring is never found full.
     */
    method SubmitEntry(m: Msg) returns (outcome: Outcome)
      requires Valid()
      modifies this, ring, arena
      ensures Valid() && model == Submission(old(model), m)
      ensures outcome.Sent? <==> Carries(cfg.zone, old(payTail), m)
      ensures handled == old(handled) + (if outcome.Sent? then [m] else [])
      ensures !outcome.Sent? ==>
        ring[..] == old(ring[..]) && ringHead == ringTail == old(ringTail) && payHead == payTail == old(payTail)
      ensures !outcome.RingIsFull? && (outcome.TooLarge? <==> |m.payload| > MAX_PAYLOAD)
      ensures outcome.NoRoom? <==>
        |m.payload| <= MAX_PAYLOAD && ReserveDaemon(old(payTail), old(payTail), cfg.zone, |m.payload|).None?
    {
      ghost var s := model;
      SubmissionDelivers(s, m);
      ReservedOrRefused(s, m);
      hide Submission, Placement, ReserveDaemon, Splice, Word, CopiedTo, StepReserve, StepOffer, TakeOne, Carries;
      var off;
      outcome, off := Reserve(m);
      if !outcome.Sent? {
        RefusedSubmission(s, m);
        model := Submission(s, m);
        return;
      }
      CopyInto(arena, off % cfg.zone, m.payload);
      CopyIsSplice(s.arena, arena[..], off % cfg.zone, m.payload);
      if off >= U32 {
        RefusedSubmission(s, m);
        model := Submission(s, m);
        return OffsetTooLarge;
      }
      Complete(s, m, off);
    }
  }
}
