/** Which sizes find room in a drained zone, submission after submission. */
module LockStepSizes {
  import opened Words
  import opened Arena
  import opened ChannelModel
  import opened LockStep

  function TotalLen(ms: seq<Msg>): nat {
    if ms == [] then 0 else |ms[0].payload| + TotalLen(ms[1..])
  }

  lemma HalfZonePlaced(zone: ZoneSize, tail: u32, len: nat)
    requires 2 * len <= zone + 1 && tail + 2 * len <= U32
    ensures Placement(zone, tail, len).Some?
    ensures Word(Placement(zone, tail, len).value + len) <= tail + 2 * len
  {
    var k := tail % zone;
    assert 0 <= k < zone;
  }

  /** Payloads of at most half the zone all arrive as long as twice their sum stays below 2^32. */
  lemma {:induction false} HalfZoneSubmissionsArrive(zone: ZoneSize, tail: u32, ms: seq<Msg>)
    requires forall i :: 0 <= i < |ms| ==> |ms[i].payload| <= MAX_PAYLOAD && 2 * |ms[i].payload| <= zone + 1
    requires tail + 2 * TotalLen(ms) <= U32
    ensures Carried(zone, tail, ms) == ms
    decreases |ms|
  {
    if ms != [] {
      var len := |ms[0].payload|;
      HalfZonePlaced(zone, tail, len);
      assert Carries(zone, tail, ms[0]);
      hide Placement, Word, Carries;
      assert ms == [ms[0]] + ms[1..];
      var off := Placement(zone, tail, len).value;
      HalfZoneSubmissionsArrive(zone, Word(off + len), ms[1..]);
    }
  }

  lemma MultipleFits(zone: nat, k: nat, len: nat)
    requires 0 < len && k < zone && k % len == 0
    ensures (k + len) % len == 0
    ensures zone % len == 0 ==> k + len <= zone
    ensures zone % len != 0 ==> k + len != zone
  {
    var b := k / len;
    assert k == b * len && k + len == (b + 1) * len + 0;
    ModOfSum(b + 1, 0, len);
    if zone % len == 0 {
      var a := zone / len;
      assert zone == a * len;
      if a <= b {
        MulMono(a, b, len);
      } else {
        MulMono(b + 1, a, len);
      }
    }
  }

  /** Within a zone that divides 2^32 a placed payload ends before the next lap or exactly at its start. */
  lemma EndOfPlaced(zone: ZoneSize, off: u32, len: nat)
    requires U32 % zone == 0 && 0 < len && off % zone + len <= zone
    ensures off + len <= U32
    ensures off % zone + len < zone ==> off + len < U32 && (off + len) % zone == off % zone + len
    ensures off % zone + len == zone ==> Word(off + len) % zone == 0
  {
    LapEnds(zone, off);
    SkipLandsOnZero(off, zone);
    var k := off % zone;
    var end := off + (zone - k);
    if k + len < zone {
      NoStraddle(off, len, zone);
    } else if end == U32 {
      assert Word(end) == 0 && 0 % zone == 0;
    } else {
      assert Word(end) == end;
    }
  }

  lemma LapEnds(zone: ZoneSize, off: u32)
    requires U32 % zone == 0
    ensures 0 <= off % zone < zone && off + (zone - off % zone) <= U32
  {
    var q, k, laps := off / zone, off % zone, U32 / zone;
    assert off == q * zone + k;
    assert U32 == laps * zone;
    LapsLeft(zone, laps, q, k);
  }

  lemma LapsLeft(zone: nat, laps: nat, q: nat, k: nat)
    requires q * zone + k < laps * zone
    ensures q * zone + zone == (q + 1) * zone <= laps * zone
  {
    if laps <= q {
      MulMono(laps, q, zone);
    } else {
      MulMono(q + 1, laps, zone);
    }
  }

  lemma {:induction false} DividingSizeArrives(zone: ZoneSize, tail: u32, m: Msg, n: nat)
    requires U32 % zone == 0 && 0 < |m.payload| <= MAX_PAYLOAD
    requires zone % |m.payload| == 0 && tail % zone % |m.payload| == 0
    ensures Carried(zone, tail, Copies(m, n)) == Copies(m, n)
    decreases n
  {
    if n > 0 {
      var len := |m.payload|;
      assert Copies(m, n)[1..] == Copies(m, n - 1);
      MultipleFits(zone, tail % zone, len);
      assert Placement(zone, tail, len) == Some(tail);
      EndOfPlaced(zone, tail, len);
      hide Word, Placement;
      NextIsAligned(zone, tail, len);
      DividingSizeArrives(zone, Word(tail + len), m, n - 1);
      assert Copies(m, n) == [m] + Copies(m, n - 1);
    }
  }

  lemma NextIsAligned(zone: ZoneSize, off: u32, len: nat)
    requires U32 % zone == 0 && 0 < len && off % zone + len <= zone && off % zone % len == 0
    ensures Word(off + len) % zone % len == 0
  {
    EndOfPlaced(zone, off, len);
    MultipleFits(zone, off % zone, len);
    if off % zone + len < zone {
      assert Word(off + len) == off + len;
    }
  }

  lemma {:induction false} OtherSizeEnds(zone: ZoneSize, tail: u32, m: Msg, n: nat)
    requires U32 % zone == 0 && 0 < |m.payload| <= MAX_PAYLOAD
    requires zone % |m.payload| != 0 && tail % zone % |m.payload| == 0
    ensures |Carried(zone, tail, Copies(m, n))| <= U32 - tail
    decreases n
  {
    if n > 0 {
      var len := |m.payload|;
      assert Copies(m, n)[1..] == Copies(m, n - 1);
      if Carries(zone, tail, m) {
        var off := Placement(zone, tail, len).value;
        PlacedIsAligned(zone, tail, len);
        MultipleFits(zone, off % zone, len);
        EndOfPlaced(zone, off, len);
        assert Word(off + len) == off + len;
        NextIsAligned(zone, off, len);
        hide Word, Placement, Carries;
        OtherSizeEnds(zone, off + len, m, n - 1);
      } else {
        hide Word, Placement, Carries;
        OtherSizeEnds(zone, tail, m, n - 1);
      }
    }
  }

  lemma PlacedIsAligned(zone: ZoneSize, tail: u32, len: nat)
    requires 0 < len <= MAX_PAYLOAD && tail % zone % len == 0 && Placement(zone, tail, len).Some?
    ensures
      var off := Placement(zone, tail, len).value;
      tail <= off && off % zone % len == 0 && off % zone + len <= zone
  {
    var k := tail % zone;
    assert 0 <= k < zone;
    if len > zone - k {
      SkipLandsOnZero(tail, zone);
      var off := tail + (zone - k);
      assert off % zone == 0 && 0 % len == 0;
    }
  }

  /** Any number of copies of the message, from the start of the zone on, find room one after another. */
  ghost predicate AlwaysFits(zone: ZoneSize, m: Msg) {
    forall n: nat :: Carried(zone, 0, Copies(m, n)) == Copies(m, n)
  }

  lemma DividingSizeAlwaysFits(zone: ZoneSize, m: Msg)
    requires U32 % zone == 0 && 0 < |m.payload| <= MAX_PAYLOAD && zone % |m.payload| == 0
    ensures AlwaysFits(zone, m)
  {
    hide Carried, Copies;
    assert 0 % zone == 0 && 0 % |m.payload| == 0;
    forall n: nat
      ensures Carried(zone, 0, Copies(m, n)) == Copies(m, n)
    {
      DividingSizeArrives(zone, 0, m, n);
    }
  }

  lemma OtherSizeStops(zone: ZoneSize, m: Msg, n: nat)
    requires U32 % zone == 0 && 0 < |m.payload| <= MAX_PAYLOAD && zone % |m.payload| != 0 && n > U32
    ensures !AlwaysFits(zone, m)
  {
    hide Carried;
    assert 0 % zone == 0 && 0 % |m.payload| == 0;
    OtherSizeEnds(zone, 0, m, n);
    assert Carried(zone, 0, Copies(m, n)) != Copies(m, n);
  }

  lemma {:induction false} EqualSizesFitIff(zone: ZoneSize, m: Msg)
    requires U32 % zone == 0 && 0 < |m.payload| <= MAX_PAYLOAD
    ensures AlwaysFits(zone, m) <==> zone % |m.payload| == 0
  {
    hide AlwaysFits;
    if zone % |m.payload| == 0 {
      DividingSizeAlwaysFits(zone, m);
    } else {
      OtherSizeStops(zone, m, U32 + 1);
    }
  }

  /** From a fresh session on, any number of submissions of the message are all delivered. */
  ghost predicate AlwaysArrives(s: Chan, m: Msg)
    requires s.cfg.Valid() && |s.ring| == s.cfg.entries
  {
    forall n: nat :: Run(s, Submissions(Copies(m, n))).delivered == Copies(m, n)
  }

  /**
   For messages of one size, in a zone that divides 2^32: all of them arrive, for ever, if and only if
   their size divides the zone. Otherwise the last lap before 2^32 ends in a gap that none of them can skip.
   */
  lemma {:induction false} EqualSizesArriveIff(s: Chan, m: Msg)
    requires Fresh(s) && s.cfg.side == Daemon
    requires U32 % s.cfg.zone == 0 && 0 < |m.payload| <= MAX_PAYLOAD
    ensures AlwaysArrives(s, m) <==> s.cfg.zone % |m.payload| == 0
  {
    FreshIsQuiet(s);
    EqualSizesFitIff(s.cfg.zone, m);
    hide Carried, Copies, Run, Submissions;
    forall n: nat
      ensures Run(s, Submissions(Copies(m, n))).delivered == Carried(s.cfg.zone, 0, Copies(m, n))
    {
      SubmissionsDeliver(s, Copies(m, n));
    }
  }
}
