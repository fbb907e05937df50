/**
 The two byte queues of a runtime UART. Transmit is a machine whose work item copies a chunk out,
 sends it without holding the device lock, commits its length and consumes it one round later, while
 writers and resets interleave. Receive is one injection at a time against a tty that may accept
 any part of what it is offered.
 */
module UartModel {
  import opened Words

  const CHUNK: nat := 256

  /** Where the transmit work item is between two critical sections. */
  datatype Phase = Resting | Sending(chunk: seq<byte>) | Sent(len: nat)

  /** `accepted` and `sent` are histories since the last reset. */
  datatype Tx = Tx(capacity: nat, queue: seq<byte>, inflight: nat, phase: Phase,
                   disconnected: bool, accepted: seq<byte>, sent: seq<byte>)

  datatype TxEvent =
    | Write(buf: seq<byte>)
    | WorkBegin | SendOk | SendFailed | Commit
    | Clear        // flush and port shutdown
    | DropCarrier  // hangup, modem command, failed configuration or daemon exit
    | Recover

  /**
   Both resets take the lock at any time. Flush, shutdown and hangup wait for the work item before,
   but a writer can queue it again, and it can copy out, before they get the lock.
   */
  predicate Resets(e: TxEvent) {
    e.Clear? || e.DropCarrier?
  }

  function Reset(s: Tx): Tx {
    s.(queue := [], inflight := 0, accepted := [], sent := [])
  }

  function Consume(q: seq<byte>, n: nat): seq<byte> {
    q[Min(n, |q|)..]
  }

  function CopyOut(q: seq<byte>, n: nat): (r: seq<byte>)
    ensures |r| <= n && r <= q
  {
    q[..Min(n, |q|)]
  }

  /** What tty write accepts: a prefix, as long as the room in the queue. */
  function Accepted(s: Tx, buf: seq<byte>): seq<byte> {
    if s.disconnected || s.capacity <= |s.queue| then []
    else buf[..Min(|buf|, s.capacity - |s.queue|)]
  }

  function StepWrite(s: Tx, buf: seq<byte>): Tx {
    s.(queue := s.queue + Accepted(s, buf), accepted := s.accepted + Accepted(s, buf))
  }

  /** The previous round's chunk leaves the queue. */
  function Retire(s: Tx): Tx {
    if s.inflight > 0 then s.(queue := Consume(s.queue, s.inflight), inflight := 0) else s
  }

  function StepWorkBegin(s: Tx): Tx {
    if !s.phase.Resting? then s else
    var s1 := Retire(s);
    if s1.disconnected || s1.queue == [] then s1
    else s1.(phase := Sending(CopyOut(s1.queue, CHUNK)))
  }

  function StepSendOk(s: Tx): Tx {
    if !s.phase.Sending? then s
    else s.(phase := Sent(|s.phase.chunk|), sent := s.sent + s.phase.chunk)
  }

  function StepSendFailed(s: Tx): Tx {
    if !s.phase.Sending? then s else Reset(s).(phase := Resting, disconnected := true)
  }

  function StepCommit(s: Tx): Tx {
    if !s.phase.Sent? then s else s.(inflight := s.phase.len, phase := Resting)
  }

  function StepDropCarrier(s: Tx): Tx {
    Reset(s).(disconnected := true)
  }

  function Step(s: Tx, e: TxEvent): Tx {
    match e
    case Write(buf) => StepWrite(s, buf)
    case WorkBegin => StepWorkBegin(s)
    case SendOk => StepSendOk(s)
    case SendFailed => StepSendFailed(s)
    case Commit => StepCommit(s)
    case Clear => Reset(s)
    case DropCarrier => StepDropCarrier(s)
    case Recover => s.(disconnected := false)
  }

  function Run(s: Tx, es: seq<TxEvent>): Tx
    decreases |es|
  {
    if es == [] then s else Run(Step(s, es[0]), es[1..])
  }

  function Init(capacity: nat): Tx {
    Tx(capacity, [], 0, Resting, false, [], [])
  }

  /** Bytes at the front of the queue that have already been sent. */
  function AlreadySent(s: Tx): nat {
    match s.phase
    case Resting => s.inflight
    case Sending(chunk) => 0
    case Sent(len) => len
  }

  /**
   Exactly once and in order: what was accepted is what was sent followed by the queue behind the
   bytes already sent, and a chunk being sent is still the front of the queue, unchanged.
   */
  predicate Inv(s: Tx) {
    && |s.queue| <= s.capacity
    && AlreadySent(s) <= |s.queue|
    && s.accepted == s.sent + s.queue[AlreadySent(s)..]
    && (!s.phase.Resting? ==> s.inflight == 0)
    && (s.phase.Sending? ==> 0 < |s.phase.chunk| <= CHUNK && s.phase.chunk <= s.queue)
    && (s.phase.Sent? ==> 0 < s.phase.len <= CHUNK)
  }

  /** Resets land only while the work item rests. */
  ghost predicate CalmRun(s: Tx, es: seq<TxEvent>)
    decreases |es|
  {
    es != [] ==>
      && (Resets(es[0]) ==> s.phase.Resting?)
      && CalmRun(Step(s, es[0]), es[1..])
  }

  lemma StepKeepsInv(s: Tx, e: TxEvent)
    requires Inv(s) && (Resets(e) ==> s.phase.Resting?)
    ensures Inv(Step(s, e))
  {
    match e
    case Write(buf) =>
      var t := StepWrite(s, buf);
      var n := AlreadySent(s);
      assert t.queue[n..] == s.queue[n..] + Accepted(s, buf);
      assert s.sent + (s.queue[n..] + Accepted(s, buf)) == (s.sent + s.queue[n..]) + Accepted(s, buf);
    case WorkBegin =>
    case SendOk =>
      if s.phase.Sending? {
        var c := s.phase.chunk;
        assert s.queue == c + s.queue[|c|..];
        assert s.sent + s.queue == (s.sent + c) + s.queue[|c|..];
      }
    case _ =>
  }

  /** Transmit is exactly-once and in order on every run whose resets are calm. */
  lemma {:induction false} RunKeepsInv(s: Tx, es: seq<TxEvent>)
    requires Inv(s) && CalmRun(s, es)
    ensures Inv(Run(s, es))
    decreases |es|
  {
    if es != [] {
      StepKeepsInv(s, es[0]);
      RunKeepsInv(Step(s, es[0]), es[1..]);
    }
  }

  lemma TransmitIsExactlyOnce(capacity: nat, es: seq<TxEvent>)
    requires CalmRun(Init(capacity), es)
    ensures
      var s := Run(Init(capacity), es);
      Inv(s) && s.accepted == s.sent + s.queue[AlreadySent(s)..]
  {
    RunKeepsInv(Init(capacity), es);
  }

  /** A reset keeps the machine's own invariant if and only if the work item rests. */
  lemma ResetIsCalmIff(s: Tx, e: TxEvent)
    requires Inv(s) && Resets(e)
    ensures Inv(Step(s, e)) <==> s.phase.Resting?
  {
  }

  // ---- Disconnection ----

  /** A dropped carrier and a failed send disconnect the port and empty its queue. */
  lemma FailureDisconnects(s: Tx, e: TxEvent)
    requires e.DropCarrier? || (e.SendFailed? && s.phase.Sending?)
    ensures
      var s' := Step(s, e);
      s'.disconnected && s'.queue == [] && s'.accepted == []
  {
  }

  /** A flush empties the queue of a connected port, which goes on accepting. */
  lemma FlushEmpties(s: Tx)
    ensures
      var s' := Step(s, Clear);
      s'.queue == [] && s'.accepted == [] && s'.inflight == 0 && s'.disconnected == s.disconnected
  {
  }

  /** Until it recovers a disconnected port accepts nothing, whatever is written, and starts no new chunk. */
  lemma {:induction false} DisconnectedAcceptsNothing(s: Tx, es: seq<TxEvent>)
    requires s.disconnected && s.queue == [] && s.accepted == [] && Recover !in es
    ensures
      var u := Run(s, es);
      && u.disconnected && u.queue == [] && u.accepted == []
      && (s.phase.Resting? ==> u.phase.Resting?) && (s.phase.Resting? && s.sent == [] ==> u.sent == [])
    decreases |es|
  {
    if es != [] {
      DisconnectedAcceptsNothing(Step(s, es[0]), es[1..]);
    }
  }

  /** After recovery a write is accepted up to the room there is. */
  lemma RecoveredAccepts(s: Tx, buf: seq<byte>)
    requires s.queue == [] && s.accepted == []
    ensures
      var u := Step(Step(s, Recover), Write(buf));
      u.accepted == buf[..Min(|buf|, s.capacity)] && u.queue == u.accepted
  {
    assert [] + buf[..Min(|buf|, s.capacity)] == buf[..Min(|buf|, s.capacity)];
  }

  // ---- Progress ----

  /** One undisturbed round of the work item. */
  function Round(s: Tx): Tx {
    StepCommit(StepSendOk(StepWorkBegin(s)))
  }

  function Rounds(s: Tx, n: nat): Tx
    decreases n
  {
    if n == 0 then s else Rounds(Round(s), n - 1)
  }

  lemma RoundSendsNextChunk(s: Tx)
    requires Inv(s) && s.phase.Resting? && !s.disconnected
    ensures
      var t := Round(s);
      && Inv(t) && t.phase.Resting? && !t.disconnected && t.accepted == s.accepted
      && t.sent == s.sent + CopyOut(s.queue[s.inflight..], CHUNK)
  {
    StepKeepsInv(s, WorkBegin);
    StepKeepsInv(StepWorkBegin(s), SendOk);
    StepKeepsInv(StepSendOk(StepWorkBegin(s)), Commit);
    assert StepWorkBegin(s).queue == s.queue[s.inflight..];
  }

  /** Left alone, the work item sends every accepted byte, 256 a round at most. */
  lemma {:induction false} EverythingAcceptedIsSent(s: Tx, n: nat)
    requires Inv(s) && s.phase.Resting? && !s.disconnected
    requires |s.queue| - s.inflight <= n * CHUNK
    ensures Rounds(s, n).sent == s.accepted
    decreases n
  {
    if n > 0 {
      RoundSendsNextChunk(s);
      var t := Round(s);
      assert |t.accepted| == |t.sent| + (|t.queue| - t.inflight);
      EverythingAcceptedIsSent(t, n - 1);
    }
  }

  // ---- Receive ----

  datatype Rx = Rx(capacity: nat, queue: seq<byte>, throttled: bool, delivered: seq<byte>)

  /** How many of the bytes behind the direct push the queue has room for. */
  function Kept(capacity: nat, used: nat, n: nat): (k: nat)
    ensures k <= n
  {
    if capacity <= used then 0 else Min(n, capacity - used)
  }

  /**
   One injection: the tty takes `direct` bytes at once (only if nothing is queued and it is not
   throttled), the rest is queued as far as it fits, then the tty takes `drained` queued bytes.
   */
  predicate Injects(r: Rx, data: seq<byte>, direct: nat, drained: nat, r': Rx) {
    && direct <= |data| && (direct > 0 ==> !r.throttled && r.queue == [])
    && var k := Kept(r.capacity, |r.queue|, |data| - direct);
       var q := r.queue + data[direct..direct + k];
       && drained <= |q| && (r.throttled ==> drained == 0)
       && r' == r.(queue := q[drained..], delivered := r.delivered + data[..direct] + q[..drained])
  }

  /** Order is kept and only a suffix is lost, and only when the queue was filled to the brim. */
  lemma ReceiveKeepsOrder(r: Rx, data: seq<byte>, direct: nat, drained: nat, r': Rx)
    requires |r.queue| <= r.capacity && Injects(r, data, direct, drained, r')
    ensures |r'.queue| <= r.capacity
    ensures
      var k := direct + Kept(r.capacity, |r.queue|, |data| - direct);
      && k <= |data|
      && r'.delivered + r'.queue == r.delivered + r.queue + data[..k]
      && r.delivered <= r'.delivered
      && (k < |data| ==> |r.queue| + (k - direct) == r.capacity)
  {
    var k := Kept(r.capacity, |r.queue|, |data| - direct);
    DirectThenQueued(r.delivered, r.queue, data[..direct], data[direct..direct + k], drained);
    assert data[..direct] + data[direct..direct + k] == data[..direct + k];
  }

  /** Splitting the queue after the direct push puts nothing out of order. */
  lemma DirectThenQueued(done: seq<byte>, q: seq<byte>, x: seq<byte>, y: seq<byte>, d: nat)
    requires x == [] || q == []
    requires d <= |q + y|
    ensures done + x + (q + y)[..d] + (q + y)[d..] == done + q + (x + y)
  {
    SplitAt(done + x, q + y, d);
    if x == [] {
      assert done + x == done && x + y == y;
      SplitAt(done, q + y, |q|);
      assert (q + y)[..|q|] == q && (q + y)[|q|..] == y;
    } else {
      assert done + q == done && q + y == y;
      SplitAt(done, x + y, |x|);
      assert (x + y)[..|x|] == x && (x + y)[|x|..] == y;
    }
  }

  lemma SplitAt(a: seq<byte>, b: seq<byte>, d: nat)
    requires d <= |b|
    ensures a + b[..d] + b[d..] == a + b
  {
  }

  datatype RxEvent = Inject(data: seq<byte>, direct: nat, drained: nat) | Throttle | Unthrottle(drained: nat)

  /** Unthrottling injects nothing, which drains the queue. */
  predicate RxNext(r: Rx, e: RxEvent, r': Rx) {
    match e
    case Inject(data, direct, drained) => Injects(r, data, direct, drained, r')
    case Throttle => r' == r.(throttled := true)
    case Unthrottle(drained) => Injects(r.(throttled := false), [], 0, drained, r')
  }

  /** The bytes of the injections that were kept, in order. */
  function KeptBytes(rs: seq<Rx>, es: seq<RxEvent>): seq<byte>
    requires |rs| == |es| + 1
    requires forall i :: 0 <= i < |es| ==> RxNext(rs[i], es[i], rs[i + 1])
    decreases |es|
  {
    if es == [] then [] else
    var n := |es| - 1;
    assert RxNext(rs[n], es[n], rs[n + 1]);
    var before := KeptBytes(rs[..|rs| - 1], es[..n]);
    match es[n]
    case Inject(data, direct, drained) =>
      before + data[..direct + Kept(rs[n].capacity, |rs[n].queue|, |data| - direct)]
    case _ => before
  }

  /** Over any run of injections and throttling, delivered plus queued is the kept input, in order. */
  lemma {:induction false} ReceiveRunKeepsOrder(rs: seq<Rx>, es: seq<RxEvent>)
    requires |rs| == |es| + 1
    requires forall i :: 0 <= i < |es| ==> RxNext(rs[i], es[i], rs[i + 1])
    requires |rs[0].queue| <= rs[0].capacity && rs[0].delivered == [] && rs[0].queue == []
    ensures var r := rs[|es|]; |r.queue| <= r.capacity && r.delivered + r.queue == KeptBytes(rs, es)
    decreases |es|
  {
    if es != [] {
      var n := |es| - 1;
      ReceiveRunKeepsOrder(rs[..|rs| - 1], es[..n]);
      match es[n]
      case Inject(data, direct, drained) => ReceiveKeepsOrder(rs[n], data, direct, drained, rs[n + 1]);
      case Throttle =>
      case Unthrottle(drained) =>
        ReceiveKeepsOrder(rs[n].(throttled := false), [], 0, drained, rs[n + 1]);
    }
  }
}
