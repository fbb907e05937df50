/** What a reset of the transmit queue loses when it lands between copy-out and commit. */
module UartLoss {
  import opened Words
  import opened UartModel

  /** How many bytes the work item has copied out and not yet committed. */
  function Outstanding(s: Tx): nat {
    match s.phase
    case Resting => 0
    case Sending(chunk) => |chunk|
    case Sent(len) => len
  }

  /** The bytes whose fate a reset left open: only those of the chunk being sent. */
  function Leaving(s: Tx): seq<byte> {
    if s.phase.Sending? then s.phase.chunk else []
  }

  /** After a reset, a work item still out with n bytes that are no longer in the queue. */
  ghost predicate Stale(s: Tx, n: nat) {
    && s.queue == s.accepted && |s.queue| <= s.capacity
    && if s.phase.Resting? then s.inflight == n else s.inflight == 0 && Outstanding(s) == n
  }

  /** What can happen until the next round: writers, recovery, and the end of the send. */
  predicate Undisturbed(es: seq<TxEvent>) {
    forall i :: 0 <= i < |es| ==> es[i].Write? || es[i].Recover? || es[i].SendOk? || es[i].Commit?
  }

  lemma {:induction false} StaleRun(s: Tx, es: seq<TxEvent>, n: nat)
    requires Stale(s, n) && Undisturbed(es)
    ensures
      var u := Run(s, es);
      Stale(u, n) && u.sent + Leaving(u) == s.sent + Leaving(s)
    decreases |es|
  {
    if es != [] {
      var s1 := Step(s, es[0]);
      assert s1.sent + Leaving(s1) == s.sent + Leaving(s) by {
        assert s.sent + [] == s.sent && (s.sent + Leaving(s)) + [] == s.sent + Leaving(s);
      }
      StaleRun(s1, es[1..], n);
    }
  }

  /**
   The next round takes the k bytes accepted first out of the queue without sending them. Counted from
   there on, what is behind them is in order.
   */
  ghost predicate DiscardsFirst(u: Tx, k: nat) {
    var v := Step(u, WorkBegin);
    && k <= |u.accepted| && u.queue == u.accepted && v.queue == u.accepted[k..]
    && v.accepted == u.accepted && v.sent == u.sent
    && Inv(v.(accepted := u.accepted[k..], sent := []))
  }

  lemma ResetLeavesStale(s: Tx, e: TxEvent)
    requires Inv(s) && !s.phase.Resting? && Resets(e)
    ensures
      var t := Step(s, e);
      Stale(t, Outstanding(s)) && Outstanding(s) > 0 && t.sent == [] && Leaving(t) == Leaving(s)
  {
  }

  lemma RetireConsumes(u: Tx)
    ensures
      var t := Retire(u);
      t == u.(queue := t.queue, inflight := 0) && t.queue == u.queue[Min(u.inflight, |u.queue|)..]
  {
    assert u.queue[0..] == u.queue;
  }

  lemma UnsentIsInv(w: Tx)
    requires w.accepted == w.queue && w.sent == [] && w.inflight == 0 && |w.queue| <= w.capacity
    requires
      || w.phase.Resting?
      || (w.queue != [] && w.phase == Sending(CopyOut(w.queue, CHUNK)))
    ensures Inv(w)
  {
    assert [] + w.queue[0..] == w.queue;
  }

  lemma StaleRoundDiscards(u: Tx, n: nat)
    requires Stale(u, n) && u.phase.Resting?
    ensures DiscardsFirst(u, Min(n, |u.accepted|))
  {
    hide Inv, Retire, CopyOut;
    RetireConsumes(u);
    var v := Step(u, WorkBegin);
    UnsentIsInv(v.(accepted := v.queue, sent := []));
  }

  /**
   A reset while n bytes are out makes the next round discard, unsent, exactly the first n bytes
   accepted since, or all of them if there are fewer; so a byte is lost if and only if one is accepted
   before that round. What is behind them is then transmitted exactly once again.
   */
  lemma {:induction false} ResetDuringSendDiscards(s: Tx, e: TxEvent, es: seq<TxEvent>)
    requires Inv(s) && !s.phase.Resting? && Resets(e) && Undisturbed(es)
    requires Run(Step(s, e), es).phase.Resting?
    ensures
      var u := Run(Step(s, e), es);
      var k := Min(Outstanding(s), |u.accepted|);
      && u.sent == Leaving(s) && DiscardsFirst(u, k)
      && (k > 0 <==> u.accepted != [])
  {
    hide Run, Step, Inv, Stale, DiscardsFirst, Undisturbed, Outstanding;
    ResetLeavesStale(s, e);
    var t := Step(s, e);
    StaleRun(t, es, Outstanding(s));
    var u := Run(t, es);
    StaleRoundDiscards(u, Outstanding(s));
    assert [] + Leaving(s) == Leaving(s) && u.sent + [] == u.sent;
  }

  /**
   The witness: carrier drops while byte 1 is being sent, recovers, byte 7 is written,
   and the stale in-flight length consumes it unsent.
   */
  lemma ByteLostByResetDuringSend(capacity: nat)
    requires capacity > 0
    ensures
      var s := Run(Init(capacity),
                   [Write([1]), WorkBegin, DropCarrier, SendOk, Commit, Recover, Write([7]), WorkBegin]);
      s.accepted == [7] && s.sent == [1] && s.queue == [] && s.inflight == 0 && s.phase.Resting?
  {
    hide Run;
    var s0 := Init(capacity);
    var s1 := Step(s0, Write([1]));
    assert s1.queue == [1];
    var s2 := Step(s1, WorkBegin);
    assert s2.phase == Sending([1]);
    var s3 := Step(s2, DropCarrier);
    var s4 := Step(s3, SendOk);
    var s5 := Step(s4, Commit);
    var s6 := Step(s5, Recover);
    var s7 := Step(s6, Write([7]));
    assert s7.queue == [7] && s7.inflight == 1;
    var s8 := Step(s7, WorkBegin);
    var e7 := [Write([7]), WorkBegin];
    var e4 := [Commit, Recover] + e7;
    var e2 := [DropCarrier, SendOk] + e4;
    RunTwo(s6, Write([7]), WorkBegin, []);
    RunTwo(s4, Commit, Recover, e7);
    RunTwo(s2, DropCarrier, SendOk, e4);
    RunTwo(s0, Write([1]), WorkBegin, e2);
    assert [Write([1]), WorkBegin] + e2
        == [Write([1]), WorkBegin, DropCarrier, SendOk, Commit, Recover, Write([7]), WorkBegin];
    assert e7 + [] == e7;
    RunNothing(s8);
  }

  lemma RunNothing(s: Tx)
    ensures Run(s, []) == s
  {
  }

  lemma RunTwo(s: Tx, d: TxEvent, e: TxEvent, es: seq<TxEvent>)
    ensures Run(s, [d, e] + es) == Run(Step(Step(s, d), e), es)
  {
    assert ([d, e] + es)[1..] == [e] + es;
    assert ([e] + es)[1..] == es;
  }
}
