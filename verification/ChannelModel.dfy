/**
 One direction of the shared-memory bridge as a state machine: a descriptor ring and a payload zone
 in shared memory, one producer and one consumer that see each other only through the four control
 words. Every event reads or writes one word, descriptor or payload, so a sequence of events is an
 interleaving.
 */
module ChannelModel {
  import opened Words
  import opened Arena

  /** Which implementation produces: the kernel wraps at 32 bits, the daemon uses unbounded integers. */
  datatype Side = Kernel | Daemon

  datatype Config = Config(side: Side, entries: nat, zone: ZoneSize, session: u32) {
    predicate Valid() { 8 <= entries <= 1024 }
  }

  datatype Msg = Msg(opcode: u16, id: u32, generation: u32, payload: seq<byte>)

  datatype Desc = Desc(session: u32, generation: u32, requestId: u32, opcode: u16,
                       payloadOffset: u32, payloadLen: nat)

  /** A message together with the unbounded offset its payload was placed at. */
  datatype Entry = Entry(off: nat, msg: Msg) {
    function End(): nat { off + |msg.payload| }
  }

  // Program counters: what each side has done to the shared page so far.
  datatype Producer =
    | Idle
    | RingChecked(m: Msg)
    | Reserved(m: Msg, off: nat)
    | Copied(m: Msg, off: nat)
    | Described(m: Msg, off: nat)
    | TailMoved(m: Msg, off: nat)

  datatype Consumer =
    | Waiting
    | Seen
    | GotDesc(desc: Desc)
    | Took(desc: Desc, payload: seq<byte>)
    | HeadMoved(desc: Desc, payload: seq<byte>)

  /** History: unwrapped counters and the messages between acceptance and delivery. */
  datatype History = History(rh: nat, rt: nat, ph: nat, pt: nat, poff: nat,
                             retiring: seq<Entry>, flight: seq<Entry>, accepted: seq<Msg>)

  datatype Chan = Chan(cfg: Config, ring: seq<Desc>, arena: seq<byte>,
                       ringHead: u32, ringTail: u32, payHead: u32, payTail: u32,
                       prod: Producer, cons: Consumer, delivered: seq<Msg>, desynced: bool,
                       h: History)

  datatype Event =
    | Offer(m: Msg) | Reserve | CopyPayload | WriteDesc | MovePayTail | MoveRingTail
    | SeeEntry | ReadDesc | ReadPayload | MoveRingHead | MovePayHead

  // ---- The steps, in the arithmetic of the code ----

  predicate FullTest(cfg: Config, head: u32, tail: u32) {
    match cfg.side
    case Kernel => Word(tail - head) >= cfg.entries
    case Daemon => tail - head >= cfg.entries
  }

  function ReserveTest(cfg: Config, head: u32, tail: u32, len: nat): Option<nat> {
    match cfg.side
    case Kernel => (match ReserveKernel(head, tail, cfg.zone, len)
                    case Some(off) => Some(off)
                    case None => None)
    case Daemon => ReserveDaemon(head, tail, cfg.zone, len)
  }

  predicate RingFull(s: Chan) {
    FullTest(s.cfg, s.ringHead, s.ringTail)
  }

  function ReserveWords(s: Chan, len: nat): Option<nat> {
    ReserveTest(s.cfg, s.payHead, s.payTail, len)
  }

  /** Overwrites the bytes from p on; out-of-range writes, which never happen, change nothing. */
  function Splice(a: seq<byte>, p: nat, data: seq<byte>): (r: seq<byte>)
    ensures |r| == |a|
  {
    if p + |data| <= |a| then a[..p] + data + a[p + |data|..] else a
  }

  function View(a: seq<byte>, p: nat, len: nat): seq<byte> {
    if p + len <= |a| then a[p..p + len] else []
  }

  function DescOf(cfg: Config, m: Msg, off: u32): Desc {
    Desc(cfg.session, m.generation, m.id, m.opcode, off, |m.payload|)
  }

  function StepOffer(s: Chan, m: Msg): Chan {
    if !s.prod.Idle? || |m.payload| > MAX_PAYLOAD || RingFull(s) then s
    else s.(prod := RingChecked(m))
  }

  function StepReserve(s: Chan): Chan {
    if !s.prod.RingChecked? then s else
    match ReserveWords(s, |s.prod.m.payload|)
    case None => s.(prod := Idle)
    case Some(off) =>
      var abs := match ReserveDaemon(s.h.ph, s.h.pt, s.cfg.zone, |s.prod.m.payload|)
        case Some(a) => a
        case None => 0;
      s.(prod := Reserved(s.prod.m, off), h := s.h.(poff := abs))
  }

  function StepCopyPayload(s: Chan): Chan {
    if !s.prod.Reserved? then s else
    s.(arena := Splice(s.arena, s.prod.off % s.cfg.zone, s.prod.m.payload),
       prod := Copied(s.prod.m, s.prod.off))
  }

  function StepWriteDesc(s: Chan): Chan
    requires s.cfg.Valid() && |s.ring| == s.cfg.entries
  {
    if !s.prod.Copied? then s
    else if s.prod.off >= U32 then s.(prod := Idle)
    else
      s.(ring := s.ring[s.ringTail % s.cfg.entries := DescOf(s.cfg, s.prod.m, s.prod.off)],
         prod := Described(s.prod.m, s.prod.off))
  }

  function StepMovePayTail(s: Chan): Chan {
    if !s.prod.Described? then s else
    s.(payTail := Word(s.prod.off + |s.prod.m.payload|),
       prod := TailMoved(s.prod.m, s.prod.off),
       h := s.h.(pt := s.h.poff + |s.prod.m.payload|))
  }

  function StepMoveRingTail(s: Chan): Chan {
    if !s.prod.TailMoved? then s else
    s.(ringTail := Word(s.ringTail + 1),
       prod := Idle,
       h := s.h.(rt := s.h.rt + 1,
                 flight := s.h.flight + [Entry(s.h.poff, s.prod.m)],
                 accepted := s.h.accepted + [s.prod.m]))
  }

  function StepSeeEntry(s: Chan): Chan {
    if !s.cons.Waiting? || s.ringHead == s.ringTail then s else s.(cons := Seen)
  }

  function StepReadDesc(s: Chan): Chan
    requires s.cfg.Valid() && |s.ring| == s.cfg.entries
  {
    if !s.cons.Seen? then s else
    var desc := s.ring[s.ringHead % s.cfg.entries];
    if desc.session != s.cfg.session then s.(desynced := true, cons := Waiting) else s.(cons := GotDesc(desc))
  }

  function StepReadPayload(s: Chan): Chan {
    if !s.cons.GotDesc? then s else
    var desc := s.cons.desc;
    s.(cons := Took(desc, View(s.arena, desc.payloadOffset % s.cfg.zone, desc.payloadLen)))
  }

  function StepMoveRingHead(s: Chan): Chan {
    if !s.cons.Took? || s.h.flight == [] then s else
    s.(ringHead := Word(s.ringHead + 1),
       cons := HeadMoved(s.cons.desc, s.cons.payload),
       h := s.h.(rh := s.h.rh + 1, retiring := [s.h.flight[0]], flight := s.h.flight[1..]))
  }

  function StepMovePayHead(s: Chan): Chan {
    if !s.cons.HeadMoved? || s.h.retiring == [] then s else
    var d := s.cons.desc;
    s.(payHead := Word(d.payloadOffset + d.payloadLen),
       cons := Waiting,
       delivered := s.delivered + [Msg(d.opcode, d.requestId, d.generation, s.cons.payload)],
       h := s.h.(ph := s.h.retiring[0].End(), retiring := []))
  }

  function Step(s: Chan, e: Event): (s': Chan)
    requires s.cfg.Valid() && |s.ring| == s.cfg.entries
    ensures s'.cfg == s.cfg && |s'.ring| == |s.ring|
  {
    match e
    case Offer(m) => StepOffer(s, m)
    case Reserve => StepReserve(s)
    case CopyPayload => StepCopyPayload(s)
    case WriteDesc => StepWriteDesc(s)
    case MovePayTail => StepMovePayTail(s)
    case MoveRingTail => StepMoveRingTail(s)
    case SeeEntry => StepSeeEntry(s)
    case ReadDesc => StepReadDesc(s)
    case ReadPayload => StepReadPayload(s)
    case MoveRingHead => StepMoveRingHead(s)
    case MovePayHead => StepMovePayHead(s)
  }

  function Run(s: Chan, es: seq<Event>): (s': Chan)
    requires s.cfg.Valid() && |s.ring| == s.cfg.entries
    ensures s'.cfg == s.cfg && |s'.ring| == |s.ring|
    decreases |es|
  {
    if es == [] then s else Run(Step(s, es[0]), es[1..])
  }

  /** A freshly initialised session: the control page is zeroed, whatever the two zones contain. */
  predicate Fresh(s: Chan) {
    && s.cfg.Valid() && |s.ring| == s.cfg.entries && |s.arena| == s.cfg.zone
    && s.ringHead == s.ringTail == s.payHead == s.payTail == 0
    && s.prod == Idle && s.cons == Waiting && s.delivered == [] && !s.desynced
    && s.h == History(0, 0, 0, 0, 0, [], [], [])
  }

  // ---- The invariant ----

  function PendingEntry(s: Chan): seq<Entry> {
    match s.prod
    case Idle => []
    case RingChecked(m) => []
    case Reserved(m, off) => [Entry(s.h.poff, m)]
    case Copied(m, off) => [Entry(s.h.poff, m)]
    case Described(m, off) => [Entry(s.h.poff, m)]
    case TailMoved(m, off) => [Entry(s.h.poff, m)]
  }

  function Published(s: Chan): seq<Entry> {
    s.h.retiring + s.h.flight
  }

  /** Everything that occupies the payload zone, oldest first. */
  function Flow(s: Chan): seq<Entry> {
    Published(s) + PendingEntry(s)
  }

  predicate Fits(zone: ZoneSize, e: Entry) {
    |e.msg.payload| > 0 ==> e.off % zone + |e.msg.payload| <= zone
  }

  /** The entries follow one another inside the window [base, top] and none straddles the zone end. */
  ghost predicate Chained(zone: ZoneSize, base: nat, top: nat, es: seq<Entry>) {
    && (forall i :: 0 <= i < |es| ==> base <= es[i].off && es[i].End() <= top && Fits(zone, es[i]))
    && (forall i, j :: 0 <= i < j < |es| ==> es[i].End() <= es[j].off)
  }

  predicate Holds(arena: seq<byte>, zone: ZoneSize, e: Entry) {
    |e.msg.payload| > 0 ==> View(arena, e.off % zone, |e.msg.payload|) == e.msg.payload
  }

  function LastEnd(base: nat, es: seq<Entry>): nat {
    if es == [] then base else es[|es| - 1].End()
  }

  function Msgs(es: seq<Entry>): (ms: seq<Msg>)
    ensures |ms| == |es| && forall i :: 0 <= i < |es| ==> ms[i] == es[i].msg
  {
    seq(|es|, i requires 0 <= i < |es| => es[i].msg)
  }

  predicate WordsOk(s: Chan) {
    && s.ringHead == Word(s.h.rh) && s.ringTail == Word(s.h.rt)
    && s.payHead == Word(s.h.ph) && s.payTail == Word(s.h.pt)
  }

  predicate SlotHolds(cfg: Config, ring: seq<Desc>, counter: nat, e: Entry)
    requires cfg.Valid() && |ring| == cfg.entries
  {
    ring[counter % cfg.entries] == DescOf(cfg, e.msg, Word(e.off))
  }

  /** The undrained slots of the ring hold the descriptors of the messages in flight. */
  ghost predicate DescsOk(cfg: Config, ring: seq<Desc>, rh: nat, flight: seq<Entry>)
    requires cfg.Valid() && |ring| == cfg.entries
  {
    forall i :: 0 <= i < |flight| ==> SlotHolds(cfg, ring, rh + i, flight[i])
  }

  /** The zone holds the payload of every entry, byte for byte. */
  ghost predicate BytesOk(arena: seq<byte>, zone: ZoneSize, es: seq<Entry>) {
    forall i :: 0 <= i < |es| ==> Holds(arena, zone, es[i])
  }

  predicate RingShape(s: Chan) {
    && s.cfg.Valid() && |s.ring| == s.cfg.entries
    && s.h.rt == s.h.rh + |s.h.flight| && |s.h.flight| <= s.cfg.entries
    && (!s.prod.Idle? ==> |s.h.flight| < s.cfg.entries)
  }

  ghost predicate RingOk(s: Chan) {
    && RingShape(s)
    && DescsOk(s.cfg, s.ring, s.h.rh, s.h.flight)
    && (s.prod.Described? || s.prod.TailMoved? ==>
          SlotHolds(s.cfg, s.ring, s.h.rt, Entry(s.h.poff, s.prod.m)))
  }

  ghost predicate ArenaOk(s: Chan) {
    && |s.arena| == s.cfg.zone
    && s.h.ph <= s.h.pt <= s.h.ph + s.cfg.zone
    && Chained(s.cfg.zone, s.h.ph, s.h.ph + s.cfg.zone, Flow(s))
    && BytesOk(s.arena, s.cfg.zone, Published(s))
    && s.h.pt == LastEnd(s.h.ph, if s.prod.TailMoved? then Flow(s) else Published(s))
  }

  predicate ProducerOk(s: Chan) {
    && (!s.prod.Idle? ==> |s.prod.m.payload| <= MAX_PAYLOAD)
    && (PendingEntry(s) != [] ==> s.prod.off == Word(s.h.poff))
    && (s.prod.Copied? || s.prod.Described? || s.prod.TailMoved? ==>
          Holds(s.arena, s.cfg.zone, Entry(s.h.poff, s.prod.m)))
  }

  predicate ConsumerOk(s: Chan) {
    && !s.desynced
    && |s.h.retiring| == (if s.cons.HeadMoved? then 1 else 0)
    && (s.cons.Seen? ==> s.h.flight != [])
    && (s.cons.GotDesc? ==>
          && s.h.flight != []
          && s.cons.desc == DescOf(s.cfg, s.h.flight[0].msg, Word(s.h.flight[0].off)))
    && (s.cons.Took? ==>
          && s.h.flight != []
          && s.cons.desc == DescOf(s.cfg, s.h.flight[0].msg, Word(s.h.flight[0].off))
          && s.cons.payload == s.h.flight[0].msg.payload)
    && (s.cons.HeadMoved? ==>
          && s.cons.desc == DescOf(s.cfg, s.h.retiring[0].msg, Word(s.h.retiring[0].off))
          && s.cons.payload == s.h.retiring[0].msg.payload)
  }

  ghost predicate Inv(s: Chan) {
    && WordsOk(s) && RingOk(s) && ArenaOk(s) && ProducerOk(s) && ConsumerOk(s)
    && s.h.accepted == s.delivered + Msgs(Published(s))
  }

  /** Both sides agree on ring slots: below 2^32, or the kernel produces and the ring size divides 2^32. */
  predicate RingExact(s: Chan) {
    s.h.rt < U32 || (s.cfg.side == Kernel && s.cfg.entries > 0 && U32 % s.cfg.entries == 0)
  }

  /** Both sides agree on payload offsets: a zone short of 2^32, or the kernel produces and the zone divides 2^32. */
  predicate PayloadExact(s: Chan) {
    s.h.pt + s.cfg.zone <= U32 || (s.cfg.side == Kernel && U32 % s.cfg.zone == 0)
  }

  predicate Exact(s: Chan) {
    RingExact(s) && PayloadExact(s)
  }
}
