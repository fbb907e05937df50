/** How the setup ioctl carves the mapped region into a control page, three rings and three zones. */
module Layout {
  import opened Words
  import opened Arena

  const CONTROL_PAGE_SIZE: nat := 156
  const DESC_SIZE: nat := 36
  const PAGE_SIZE: nat := 4096

  datatype Setup = Setup(controlEntries: u32, transportEntries: u32, replyEntries: u32, arenaSize: u32)

  datatype Offsets = Offsets(controlRing: u32, transportRing: u32, replyRing: u32,
                             controlPayload: u32, controlSize: u32,
                             transportPayload: u32, transportSize: u32,
                             replyPayload: u32, replySize: u32, regionSize: u32)

  predicate ValidEntries(n: u32) { 8 <= n <= 1024 }

  predicate ValidArena(n: u32) { 2 * 1024 * 1024 <= n <= 64 * 1024 * 1024 }

  function PageAlign(x: u32): u32 {
    Word((x + PAGE_SIZE - 1) / PAGE_SIZE * PAGE_SIZE)
  }

  /** The ioctl's arithmetic, every addition in a u32; None where it returns -EINVAL. */
  function Carve(s: Setup): (r: Option<Offsets>) {
    if !ValidEntries(s.controlEntries) || !ValidEntries(s.transportEntries)
       || !ValidEntries(s.replyEntries) || !ValidArena(s.arenaSize) then
      None
    else
      var controlSize := s.arenaSize / 4;
      var replySize := s.arenaSize / 4;
      var transportSize := s.arenaSize - controlSize - replySize;
      if controlSize == 0 || transportSize == 0 || replySize == 0 then None else
      var controlRing := CONTROL_PAGE_SIZE;
      var transportRing := Word(controlRing + s.controlEntries * DESC_SIZE);
      var replyRing := Word(transportRing + s.transportEntries * DESC_SIZE);
      var controlPayload := Word(replyRing + s.replyEntries * DESC_SIZE);
      var transportPayload := Word(controlPayload + controlSize);
      var replyPayload := Word(transportPayload + transportSize);
      Some(Offsets(controlRing, transportRing, replyRing, controlPayload, controlSize,
                   transportPayload, transportSize, replyPayload, replySize,
                   PageAlign(Word(replyPayload + replySize))))
  }

  datatype Region = Region(start: nat, size: nat) {
    function End(): nat { start + size }
  }

  /** The seven parts of the region, with the entry counts the daemon asked for. */
  function Regions(s: Setup, o: Offsets): seq<Region> {
    [ Region(0, CONTROL_PAGE_SIZE),
      Region(o.controlRing, s.controlEntries * DESC_SIZE),
      Region(o.transportRing, s.transportEntries * DESC_SIZE),
      Region(o.replyRing, s.replyEntries * DESC_SIZE),
      Region(o.controlPayload, o.controlSize),
      Region(o.transportPayload, o.transportSize),
      Region(o.replyPayload, o.replySize) ]
  }

  /** v5_init_shared_locked recovers the ring sizes from the offsets alone. */
  function RederivedEntries(o: Offsets): (u32, u32, u32) {
    (Word(o.transportRing - o.controlRing) / DESC_SIZE,
     Word(o.replyRing - o.transportRing) / DESC_SIZE,
     Word(o.controlPayload - o.replyRing) / DESC_SIZE)
  }

  /** Setup accepts exactly the requests whose four sizes are in range; no zone of them is ever empty. */
  lemma CarveAcceptsIff(s: Setup)
    ensures Carve(s).Some? <==>
      && 8 <= s.controlEntries <= 1024 && 8 <= s.transportEntries <= 1024 && 8 <= s.replyEntries <= 1024
      && 0x20_0000 <= s.arenaSize <= 0x400_0000
  {
  }

  /**
   What an accepted setup can carry: every payload the senders accept goes through each of the three
   drained zones, below the wrap, if and only if the arena has at least four times twice the largest
   payload, up to the rounding of the split.
   */
  lemma {:induction false} CarriesEveryPayloadIff(s: Setup)
    requires Carve(s).Some?
    ensures
      var o := Carve(s).value;
      && 1 <= o.controlSize <= MAX_ZONE && 1 <= o.transportSize <= MAX_ZONE && 1 <= o.replySize <= MAX_ZONE
      && (TakesEveryPayload(o.controlSize) && TakesEveryPayload(o.transportSize) && TakesEveryPayload(o.replySize)
          <==> s.arenaSize >= 4 * (2 * MAX_PAYLOAD - 1))
  {
    hide TakesEveryPayload, PageAlign, Word;
    var o := Carve(s).value;
    TakesEveryPayloadIff(o.controlSize);
    TakesEveryPayloadIff(o.transportSize);
    TakesEveryPayloadIff(o.replySize);
  }

  lemma SmallWord(x: int)
    requires 0 <= x < U32
    ensures Word(x) == x
  {
  }

  /** No 32-bit addition of the ioctl wraps, so each part starts exactly where the previous one ends. */
  lemma NoOffsetWraps(s: Setup)
    requires Carve(s).Some?
    ensures
      var o := Carve(s).value;
      && o.controlRing == CONTROL_PAGE_SIZE
      && o.transportRing == o.controlRing + s.controlEntries * DESC_SIZE
      && o.replyRing == o.transportRing + s.transportEntries * DESC_SIZE
      && o.controlPayload == o.replyRing + s.replyEntries * DESC_SIZE
      && o.transportPayload == o.controlPayload + o.controlSize
      && o.replyPayload == o.transportPayload + o.transportSize
  {
    hide PageAlign, Word;
    var control := CONTROL_PAGE_SIZE + s.controlEntries * DESC_SIZE;
    var transport := control + s.transportEntries * DESC_SIZE;
    var reply := transport + s.replyEntries * DESC_SIZE;
    SmallWord(control);
    SmallWord(transport);
    SmallWord(reply);
    SmallWord(reply + s.arenaSize / 4);
    SmallWord(reply + s.arenaSize / 4 + (s.arenaSize - s.arenaSize / 4 - s.arenaSize / 4));
  }

  lemma PageAlignRoundsUp(x: u32)
    requires x + PAGE_SIZE <= U32
    ensures x <= PageAlign(x) < x + PAGE_SIZE && PageAlign(x) % PAGE_SIZE == 0
  {
  }

  /**
   The parts follow one another without overlap, fill the region up to its page padding, share out
   the whole arena, and every zone is a legal zone size.
   */
  lemma CarvedRegionsAreDisjoint(s: Setup)
    requires Carve(s).Some?
    ensures
      var o := Carve(s).value;
      var rs := Regions(s, o);
      && (forall i, j :: 0 <= i < j < |rs| ==> rs[i].End() <= rs[j].start)
      && (forall i :: 0 <= i < |rs| ==> rs[i].size > 0 && rs[i].End() <= o.regionSize)
      && o.controlSize + o.transportSize + o.replySize == s.arenaSize
      && o.controlSize <= MAX_ZONE && o.transportSize <= MAX_ZONE && o.replySize <= MAX_ZONE
      && o.regionSize % PAGE_SIZE == 0 && o.regionSize < rs[6].End() + PAGE_SIZE
  {
    hide PageAlign, Word;
    var o := Carve(s).value;
    NoOffsetWraps(s);
    assert o.controlSize + o.transportSize + o.replySize == s.arenaSize;
    assert o.replyPayload + o.replySize < 0x1000_0000;
    SmallWord(o.replyPayload + o.replySize);
    PageAlignRoundsUp(o.replyPayload + o.replySize);
    assert o.regionSize == PageAlign(o.replyPayload + o.replySize);
    hide Carve;
  }

  lemma RederivedEntriesAreRequested(s: Setup)
    requires Carve(s).Some?
    ensures RederivedEntries(Carve(s).value) == (s.controlEntries, s.transportEntries, s.replyEntries)
  {
    NoOffsetWraps(s);
    assert s.controlEntries <= 1024 && s.transportEntries <= 1024 && s.replyEntries <= 1024;
    SmallWord(s.controlEntries * DESC_SIZE);
    SmallWord(s.transportEntries * DESC_SIZE);
    SmallWord(s.replyEntries * DESC_SIZE);
    hide Carve, Word;
  }

  /** Where both sides look for the descriptor of a ring counter. */
  function DescAddress(ringOffset: u32, entries: nat, counter: nat): nat
    requires entries > 0
  {
    ringOffset + (counter % entries) * DESC_SIZE
  }

  /**
   Two descriptor addresses of the same ring are equal or a whole descriptor apart, and each lies
   inside the ring, whatever the counters.
   */
  lemma {:induction false} DescriptorsDoNotOverlap(ringOffset: u32, entries: nat, a: nat, b: nat)
    requires entries > 0
    ensures
      var x, y := DescAddress(ringOffset, entries, a), DescAddress(ringOffset, entries, b);
      && ringOffset <= x && x + DESC_SIZE <= ringOffset + entries * DESC_SIZE
      && (x == y || x + DESC_SIZE <= y || y + DESC_SIZE <= x)
      && (x == y <==> a % entries == b % entries)
  {
    assert 0 <= a % entries < entries && 0 <= b % entries < entries;
  }
}
