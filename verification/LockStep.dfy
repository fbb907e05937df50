/**
 The daemon's control and reply rings as the daemon uses them. It holds one lock from the full test to the
 submit ioctl, and the ioctl drains the ring, so every submission finds ring and zone drained.
 */
module LockStep {
  import opened Words
  import opened Arena
  import opened ChannelModel
  import opened ChannelProofs
  import opened Channel

  /** Between two submissions, whatever the counters, the ring, the zone and the history hold. */
  predicate Quiet(s: Chan) {
    && s.cfg.Valid() && s.cfg.side == Daemon && |s.ring| == s.cfg.entries && |s.arena| == s.cfg.zone
    && s.ringHead == s.ringTail && s.payHead == s.payTail
    && s.prod.Idle? && s.cons.Waiting? && !s.desynced && s.h.flight == [] && s.h.retiring == []
  }

  /** Where a drained zone takes len bytes: at the tail, or at the next lap if that is below 2^32. */
  function Placement(zone: ZoneSize, tail: u32, len: nat): Option<u32> {
    var k := tail % zone;
    if len == 0 || len <= zone - k then Some(tail)
    else if len <= k && tail + (zone - k) < U32 then Some(tail + (zone - k))
    else None
  }

  predicate Carries(zone: ZoneSize, tail: u32, m: Msg) {
    |m.payload| <= MAX_PAYLOAD && Placement(zone, tail, |m.payload|).Some?
  }

  /** _submit_ring_entry with the kernel's drain in its ioctl. */
  function Submission(s: Chan, m: Msg): (t: Chan)
    requires s.cfg.Valid() && |s.ring| == s.cfg.entries
    ensures t.cfg == s.cfg && |t.ring| == |s.ring|
  {
    TakeOne(Publish(s, m))
  }

  /** The reservation that fits the descriptor is the placement, and it does not straddle the zone's end. */
  lemma PlacementIsReservation(zone: ZoneSize, tail: u32, len: nat)
    requires len <= MAX_PAYLOAD
    ensures
      var r := ReserveDaemon(tail, tail, zone, len);
      && Placement(zone, tail, len) == (if r.Some? && r.value < U32 then Some(r.value) else None)
      && (r.Some? ==> r.value % zone + len <= zone)
  {
    SkipLandsOnZero(tail, zone);
  }

  /** The ring is never full: it is empty. */
  lemma QuietIsNotFull(s: Chan)
    requires Quiet(s)
    ensures !RingFull(s)
  {
  }

  lemma ViewOfWritten(a: seq<byte>, p: nat, data: seq<byte>)
    requires p + |data| <= |a|
    ensures View(Splice(a, p, data), p, |data|) == data
  {
  }

  /** The state between the last store of a submission and the drain: one message in flight. */
  function OneInFlight(s: Chan, m: Msg, off: u32): Chan
    requires Quiet(s)
  {
    var abs := StepReserve(StepOffer(s, m)).h.poff;
    s.(ring := s.ring[s.ringTail % s.cfg.entries := DescOf(s.cfg, m, off)],
       arena := Splice(s.arena, off % s.cfg.zone, m.payload),
       payTail := Word(off + |m.payload|), ringTail := Word(s.ringTail + 1),
       h := s.h.(poff := abs, pt := abs + |m.payload|, rt := s.h.rt + 1, flight := [Entry(abs, m)],
                 accepted := s.h.accepted + [m]))
  }

  lemma PublishWhenQuiet(s: Chan, m: Msg)
    requires Quiet(s) && Carries(s.cfg.zone, s.payTail, m)
    ensures Publish(s, m) == OneInFlight(s, m, Placement(s.cfg.zone, s.payTail, |m.payload|).value)
  {
    PlacementIsReservation(s.cfg.zone, s.payTail, |m.payload|);
    QuietIsNotFull(s);
    hide ReserveDaemon, Placement, Splice, Word, RingFull;
    var s1 := StepOffer(s, m);
    assert s1 == s.(prod := RingChecked(m));
    var s2 := StepReserve(s1);
    assert [] + [Entry(s2.h.poff, m)] == [Entry(s2.h.poff, m)];
  }

  lemma RefusedWhenQuiet(s: Chan, m: Msg)
    requires Quiet(s) && !Carries(s.cfg.zone, s.payTail, m)
    ensures
      var t := Publish(s, m);
      var r := ReserveDaemon(s.payTail, s.payTail, s.cfg.zone, |m.payload|);
      t == s.(arena := if |m.payload| <= MAX_PAYLOAD && r.Some? then
                         Splice(s.arena, r.value % s.cfg.zone, m.payload)
                       else
                         s.arena,
              h := s.h.(poff := t.h.poff))
  {
    if |m.payload| > MAX_PAYLOAD {
      return;
    }
    PlacementIsReservation(s.cfg.zone, s.payTail, |m.payload|);
    QuietIsNotFull(s);
    hide ReserveDaemon, Placement, Splice, Word, RingFull;
    var s1 := StepOffer(s, m);
    var s2 := StepReserve(s1);
    var s3 := StepCopyPayload(s2);
    assert StepWriteDesc(s3).prod.Idle?;
  }

  lemma NothingToTake(s: Chan)
    requires s.cfg.Valid() && |s.ring| == s.cfg.entries && s.cons.Waiting? && s.ringHead == s.ringTail
    ensures TakeOne(s) == s
  {
  }

  lemma WordMoves(w: u32)
    ensures Word(w + 1) != w
  {
  }

  lemma TakePublished(s: Chan, m: Msg)
    requires Quiet(s) && Carries(s.cfg.zone, s.payTail, m)
    ensures
      var off := Placement(s.cfg.zone, s.payTail, |m.payload|).value;
      var p := OneInFlight(s, m, off);
      TakeOne(p) == p.(ringHead := p.ringTail, payHead := p.payTail, delivered := s.delivered + [m],
                       h := p.h.(rh := s.h.rh + 1, ph := p.h.pt, flight := [], retiring := []))
  {
    PlacementIsReservation(s.cfg.zone, s.payTail, |m.payload|);
    var off := Placement(s.cfg.zone, s.payTail, |m.payload|).value;
    ViewOfWritten(s.arena, off % s.cfg.zone, m.payload);
    WordMoves(s.ringTail);
    hide ReserveDaemon, Placement, Splice, View, Word, StepReserve, StepOffer;
    var p := OneInFlight(s, m, off);
    var s1 := StepTake(p);
    assert s1 == p.(cons := Took(DescOf(s.cfg, m, off), m.payload));
    var s2 := StepMoveRingHead(s1);
    assert p.h.flight[1..] == [];
  }

  lemma RefusedSubmission(s: Chan, m: Msg)
    requires Quiet(s) && !Carries(s.cfg.zone, s.payTail, m)
    ensures
      var t := Submission(s, m);
      var r := ReserveDaemon(s.payTail, s.payTail, s.cfg.zone, |m.payload|);
      t == s.(arena := if |m.payload| <= MAX_PAYLOAD && r.Some? then
                         Splice(s.arena, r.value % s.cfg.zone, m.payload)
                       else
                         s.arena,
              h := s.h.(poff := t.h.poff))
  {
    hide Carries, Placement, Splice, Word, ReserveDaemon;
    RefusedWhenQuiet(s, m);
    hide Publish;
    NothingToTake(Publish(s, m));
  }

  lemma CarriedSubmission(s: Chan, m: Msg)
    requires Quiet(s) && Carries(s.cfg.zone, s.payTail, m)
    ensures Submission(s, m) == TakeOne(OneInFlight(s, m, Placement(s.cfg.zone, s.payTail, |m.payload|).value))
  {
    PublishWhenQuiet(s, m);
  }

  /**
   A submission hands over exactly its message, or exactly nothing, and finds ring and zone drained again:
   for any counters, ring size and zone. Refused, it changes at most bytes of the drained zone.
   */
  lemma {:induction false} SubmissionDelivers(s: Chan, m: Msg)
    requires Quiet(s)
    ensures
      var t := Submission(s, m);
      && Quiet(t) && t.cfg == s.cfg
      && if Carries(s.cfg.zone, s.payTail, m) then
           && t.delivered == s.delivered + [m] && t.h.accepted == s.h.accepted + [m]
           && t.payTail == Word(Placement(s.cfg.zone, s.payTail, |m.payload|).value + |m.payload|)
           && t.ringTail == Word(s.ringTail + 1)
         else
           t == s.(arena := t.arena, h := s.h.(poff := t.h.poff))
  {
    hide Carries, Placement, Splice, Word, Submission, ReserveDaemon;
    if Carries(s.cfg.zone, s.payTail, m) {
      CarriedSubmission(s, m);
      TakePublished(s, m);
      hide TakeOne;
    } else {
      RefusedSubmission(s, m);
    }
  }

  // ---- Runs ----

  /** The events of a submission, in program order: the daemon's, then the kernel's. */
  function SubmitEvents(m: Msg): seq<Event> {
    [Offer(m), Reserve, CopyPayload, WriteDesc, MovePayTail, MoveRingTail] + DrainEvents(1)
  }

  function Submissions(ms: seq<Msg>): seq<Event> {
    if ms == [] then [] else SubmitEvents(ms[0]) + Submissions(ms[1..])
  }

  /** The messages that find room at their turn. */
  function Carried(zone: ZoneSize, tail: u32, ms: seq<Msg>): seq<Msg>
    decreases |ms|
  {
    if ms == [] then []
    else if Carries(zone, tail, ms[0]) then
      var off := Placement(zone, tail, |ms[0].payload|).value;
      [ms[0]] + Carried(zone, Word(off + |ms[0].payload|), ms[1..])
    else Carried(zone, tail, ms[1..])
  }

  lemma RunOneSubmission(s: Chan, m: Msg, rest: seq<Event>)
    requires s.cfg.Valid() && |s.ring| == s.cfg.entries
    ensures Run(s, SubmitEvents(m) + rest) == Run(Submission(s, m), rest)
  {
    var s1 := Step(s, Offer(m));
    var s2 := Step(s1, Reserve);
    var s3 := Step(s2, CopyPayload);
    var s4 := Step(s3, WriteDesc);
    var s5 := Step(s4, MovePayTail);
    var s6 := Step(s5, MoveRingTail);
    assert s6 == Publish(s, m);
    hide Step, Publish, TakeOne, Run;
    var e6 := DrainEvents(1) + rest;
    RunOneStep(s, Offer(m), [Reserve, CopyPayload, WriteDesc, MovePayTail, MoveRingTail] + e6);
    RunOneStep(s1, Reserve, [CopyPayload, WriteDesc, MovePayTail, MoveRingTail] + e6);
    RunOneStep(s2, CopyPayload, [WriteDesc, MovePayTail, MoveRingTail] + e6);
    RunOneStep(s3, WriteDesc, [MovePayTail, MoveRingTail] + e6);
    RunOneStep(s4, MovePayTail, [MoveRingTail] + e6);
    RunOneStep(s5, MoveRingTail, e6);
    SubmitSplits(m, rest);
    assert DrainEvents(1) == [SeeEntry, ReadDesc, ReadPayload, MoveRingHead, MovePayHead] + DrainEvents(0);
    assert DrainEvents(1) == [SeeEntry, ReadDesc, ReadPayload, MoveRingHead, MovePayHead];
    RunOneRound(s6, rest);
  }

  lemma SubmitSplits(m: Msg, rest: seq<Event>)
    ensures
      var e6 := DrainEvents(1) + rest;
      && SubmitEvents(m) + rest
           == [Offer(m)] + ([Reserve, CopyPayload, WriteDesc, MovePayTail, MoveRingTail] + e6)
      && [Reserve, CopyPayload, WriteDesc, MovePayTail, MoveRingTail] + e6
           == [Reserve] + ([CopyPayload, WriteDesc, MovePayTail, MoveRingTail] + e6)
      && [CopyPayload, WriteDesc, MovePayTail, MoveRingTail] + e6
           == [CopyPayload] + ([WriteDesc, MovePayTail, MoveRingTail] + e6)
      && [WriteDesc, MovePayTail, MoveRingTail] + e6 == [WriteDesc] + ([MovePayTail, MoveRingTail] + e6)
      && [MovePayTail, MoveRingTail] + e6 == [MovePayTail] + ([MoveRingTail] + e6)
  {
    hide DrainEvents;
  }

  lemma FreshIsQuiet(s: Chan)
    requires Fresh(s) && s.cfg.side == Daemon
    ensures Quiet(s)
  {
  }

  /**
   Over any number of submissions, across any number of wraps of the ring words, the kernel has handled
   exactly the messages that found room at their turn, in order.
   */
  lemma {:induction false} SubmissionsDeliver(s: Chan, ms: seq<Msg>)
    requires Quiet(s)
    ensures
      var t := Run(s, Submissions(ms));
      && Quiet(t)
      && t.delivered == s.delivered + Carried(s.cfg.zone, s.payTail, ms)
      && t.h.accepted == s.h.accepted + Carried(s.cfg.zone, s.payTail, ms)
    decreases |ms|
  {
    hide Step, SubmitEvents, Submission, Carries, Placement, Word;
    if ms != [] {
      RunOneSubmission(s, ms[0], Submissions(ms[1..]));
      SubmissionDelivers(s, ms[0]);
      var t := Submission(s, ms[0]);
      SubmissionsDeliver(t, ms[1..]);
      hide Run, Quiet;
      assert Run(s, Submissions(ms)) == Run(t, Submissions(ms[1..]));
      if Carries(s.cfg.zone, s.payTail, ms[0]) {
        MoveOver(s.delivered, ms[0], Carried(s.cfg.zone, t.payTail, ms[1..]));
        MoveOver(s.h.accepted, ms[0], Carried(s.cfg.zone, t.payTail, ms[1..]));
      }
    }
  }

  lemma MoveOver(done: seq<Msg>, m: Msg, rest: seq<Msg>)
    ensures done + [m] + rest == done + ([m] + rest)
  {
  }

  // ---- What finds no room ----

  function Copies(m: Msg, n: nat): (ms: seq<Msg>)
    ensures |ms| == n && forall i :: 0 <= i < n ==> ms[i] == m
  {
    seq(n, _ => m)
  }

  /** Submitting a message that finds no room again and again never delivers it. */
  lemma {:induction false} RefusedForGood(s: Chan, m: Msg, n: nat)
    requires Quiet(s) && !Carries(s.cfg.zone, s.payTail, m)
    ensures Run(s, Submissions(Copies(m, n))).delivered == s.delivered
  {
    NoneCarried(s.cfg.zone, s.payTail, m, n);
    SubmissionsDeliver(s, Copies(m, n));
  }

  lemma {:induction false} NoneCarried(zone: ZoneSize, tail: u32, m: Msg, n: nat)
    requires !Carries(zone, tail, m)
    ensures Carried(zone, tail, Copies(m, n)) == []
  {
    hide Carries, Placement, Word;
    if n > 0 {
      assert Copies(m, n)[1..] == Copies(m, n - 1);
      NoneCarried(zone, tail, m, n - 1);
    }
  }

  /** An offset of 2^32 or more is reserved and the payload copied, but no descriptor is written and no tail moves. */
  lemma OffsetPastWrapIsRefused(s: Chan, m: Msg)
    requires Quiet(s) && |m.payload| <= MAX_PAYLOAD
    requires
      var r := ReserveDaemon(s.payTail, s.payTail, s.cfg.zone, |m.payload|);
      r.Some? && r.value >= U32
    ensures
      var t := StepCopyPayload(StepReserve(StepOffer(s, m)));
      && t.prod.Copied? && t.prod.off >= U32
      && StepWriteDesc(t) == t.(prod := Idle)
      && t.ring == s.ring && t.ringTail == s.ringTail && t.payTail == s.payTail
  {
    QuietIsNotFull(s);
    hide ReserveDaemon, Splice, RingFull;
  }

  /** Ten bytes short of 2^32 a 20-byte message is that case in a 4 MiB zone, however often it is submitted. */
  lemma {:induction false} DaemonStuckAtWrap(s: Chan, m: Msg, n: nat)
    requires Quiet(s) && s.cfg.zone == 4 * 1024 * 1024 && s.payTail == 0xFFFF_FFF6 && |m.payload| == 20
    ensures ReserveDaemon(s.payTail, s.payTail, s.cfg.zone, 20) == Some(U32)
    ensures Run(s, Submissions(Copies(m, n))).delivered == s.delivered
  {
    DrainedKernelArenaStuckAtWrap();
    assert !Carries(s.cfg.zone, s.payTail, m);
    RefusedForGood(s, m, n);
  }

  /** What the reservation and the 32 bits of the offset say together is whether the message is carried. */
  lemma ReservedOrRefused(s: Chan, m: Msg)
    requires Quiet(s)
    ensures
      var r := ReserveDaemon(s.payTail, s.payTail, s.cfg.zone, |m.payload|);
      && (Carries(s.cfg.zone, s.payTail, m) <==> |m.payload| <= MAX_PAYLOAD && r.Some? && r.value < U32)
      && (Carries(s.cfg.zone, s.payTail, m) ==>
            Placement(s.cfg.zone, s.payTail, |m.payload|) == Some(r.value))
      && (|m.payload| <= MAX_PAYLOAD && r.Some? ==> r.value % s.cfg.zone + |m.payload| <= s.cfg.zone)
  {
    if |m.payload| <= MAX_PAYLOAD {
      PlacementIsReservation(s.cfg.zone, s.payTail, |m.payload|);
    }
  }
}
