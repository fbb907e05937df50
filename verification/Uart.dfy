/** The UART port of the kernel: two circular byte buffers, refining the queue model. */
module Uart {
  import opened Words
  import opened UartModel

  /** Position x of a buffer of length n, for x less than two laps. */
  function Wrap(x: nat, n: nat): nat
    requires x < 2 * n
  {
    if x < n then x else x - n
  }

  lemma WrapIsMod(x: nat, n: nat)
    requires x < 2 * n
    ensures x % n == Wrap(x, n)
  {
    if x < n {
      ModOfSum(0, x, n);
    } else {
      ModOfSum(1, x - n, n);
    }
  }

  /** The bytes a circular buffer holds, oldest first. */
  function Unrolled(a: seq<byte>, head: nat, count: nat): (r: seq<byte>)
    requires head < |a| && count <= |a|
    ensures |r| == count
    ensures forall i :: 0 <= i < count ==> r[i] == a[Wrap(head + i, |a|)]
  {
    if head + count <= |a| then a[head..head + count] else a[head..] + a[..head + count - |a|]
  }

  /** Writing behind the newest byte, in up to two pieces, appends. */
  lemma {:induction false} WriteBehindAppends(a: seq<byte>, a': seq<byte>, head: nat, count: nat, data: seq<byte>)
    requires head < |a| == |a'| && count + |data| <= |a|
    requires
      var tail := Wrap(head + count, |a|);
      forall j :: 0 <= j < |a| ==>
        a'[j] == if tail <= j < tail + |data| then data[j - tail]
                 else if j < tail + |data| - |a| then data[|a| - tail + j]
                 else a[j]
    ensures Unrolled(a', head, count + |data|) == Unrolled(a, head, count) + data
  {
    var u, v := Unrolled(a', head, count + |data|), Unrolled(a, head, count) + data;
    forall i | 0 <= i < |v|
      ensures u[i] == v[i]
    {
      var j := Wrap(head + i, |a|);
      assert u[i] == a'[j];
      if i < count {
        assert v[i] == a[j];
      }
    }
  }

  /** Moving the head forward drops the oldest bytes. */
  lemma {:induction false} AdvanceDrops(a: seq<byte>, head: nat, count: nat, n: nat)
    requires head < |a| && n <= count <= |a|
    ensures Unrolled(a, Wrap(head + n, |a|), count - n) == Unrolled(a, head, count)[n..]
  {
    var u, v := Unrolled(a, Wrap(head + n, |a|), count - n), Unrolled(a, head, count)[n..];
    forall i | 0 <= i < count - n
      ensures u[i] == v[i]
    {
      assert v[i] == a[Wrap(head + (n + i), |a|)];
    }
  }

  /** The oldest bytes, up to the end of the buffer, lie side by side. */
  lemma FirstPiece(a: seq<byte>, head: nat, count: nat, n: nat)
    requires head < |a| && n <= count <= |a| && head + n <= |a|
    ensures a[head..head + n] == Unrolled(a, head, count)[..n]
  {
  }

  lemma DrainsInto(start: Rx, data: seq<byte>, direct: nat, drained: nat, queued: Rx, r': Rx)
    requires direct <= |data| && (direct > 0 ==> !start.throttled && start.queue == [])
    requires
      var k := Kept(start.capacity, |start.queue|, |data| - direct);
      queued == start.(queue := start.queue + data[direct..direct + k], delivered := start.delivered + data[..direct])
    requires drained <= |queued.queue| && (start.throttled ==> drained == 0)
    requires r' == queued.(queue := queued.queue[drained..], delivered := queued.delivered + queued.queue[..drained])
    ensures Injects(start, data, direct, drained, r')
  {
  }

  /** The oldest n bytes, in at most two pieces. */
  lemma OldestBytes(a: seq<byte>, head: nat, count: nat, n: nat)
    requires head < |a| && n <= count <= |a|
    ensures
      var first := Min(n, |a| - head);
      Unrolled(a, head, count)[..n] == a[head..head + first] + a[..n - first]
  {
  }

  lemma AllDirect(r: Rx, data: seq<byte>, drained: nat, r': Rx)
    requires Injects(r, data, |data|, drained, r')
    ensures r.queue == [] && r'.queue == [] ==> r'.delivered == r.delivered + data
  {
    assert r.delivered + data + [] == r.delivered + data;
  }

  lemma InjectsNothing(r: Rx, direct: nat, drained: nat, r': Rx)
    requires Injects(r, [], direct, drained, r')
    ensures direct == 0 && (r'.queue == [] ==> r'.delivered == r.delivered + r.queue)
  {
    assert r.queue + [] == r.queue && r.delivered + [] == r.delivered;
  }

  /** The tty takes every offer of up to n bytes whole. */
  predicate Takes(room: seq<nat>, n: nat) {
    forall i :: 0 <= i < |room| ==> room[i] >= n
  }

  class UartPort {
    var txQueue: array<byte>
    var txHead: nat
    var txTail: nat
    var txCount: nat
    var txInflight: nat
    var rxQueue: array<byte>
    var rxHead: nat
    var rxTail: nat
    var rxCount: nat
    var throttled: bool
    var disconnected: bool
    /** How many bytes the tty will take of each offer; when they are used up it takes everything. */
    var ttyRoom: seq<nat>
    /** The work item's progress; its chunk is a local buffer of the work function. */
    var phase: Phase
    ghost var accepted: seq<byte>
    ghost var sent: seq<byte>
    ghost var delivered: seq<byte>

    ghost predicate TxShape()
      reads this`txQueue, this`txHead, this`txTail, this`txCount, txQueue
    {
      && 0 < txQueue.Length && txHead < txQueue.Length && txCount <= txQueue.Length
      && txTail == Wrap(txHead + txCount, txQueue.Length)
    }

    ghost predicate RxShape()
      reads this`rxQueue, this`rxHead, this`rxTail, this`rxCount, rxQueue
    {
      && 0 < rxQueue.Length && rxHead < rxQueue.Length && rxCount <= rxQueue.Length
      && rxTail == Wrap(rxHead + rxCount, rxQueue.Length)
    }

    ghost predicate Shape()
      reads this`txQueue, this`txHead, this`txTail, this`txCount, txQueue
      reads this`rxQueue, this`rxHead, this`rxTail, this`rxCount, rxQueue
    {
      TxShape() && RxShape() && txQueue != rxQueue
    }

    ghost function TxBytes(): seq<byte>
      requires TxShape()
      reads this`txQueue, this`txHead, this`txTail, this`txCount, txQueue
    {
      Unrolled(txQueue[..], txHead, txCount)
    }

    ghost function RxBytes(): seq<byte>
      requires RxShape()
      reads this`rxQueue, this`rxHead, this`rxTail, this`rxCount, rxQueue
    {
      Unrolled(rxQueue[..], rxHead, rxCount)
    }

    ghost function TxView(): Tx
      requires TxShape()
      reads this`txQueue, this`txHead, this`txTail, this`txCount, txQueue
      reads this`txInflight, this`phase, this`disconnected, this`accepted, this`sent
    {
      Tx(txQueue.Length, TxBytes(), txInflight, phase, disconnected, accepted, sent)
    }

    ghost function RxView(): Rx
      requires RxShape()
      reads this`rxQueue, this`rxHead, this`rxTail, this`rxCount, rxQueue
      reads this`throttled, this`delivered
    {
      Rx(rxQueue.Length, RxBytes(), throttled, delivered)
    }

    constructor (txCapacity: nat, rxCapacity: nat, room: seq<nat>)
      requires 256 <= txCapacity <= 65536 && 256 <= rxCapacity <= 65536
      ensures Shape() && TxView() == Init(txCapacity) && RxView() == Rx(rxCapacity, [], false, [])
      ensures fresh(txQueue) && fresh(rxQueue) && ttyRoom == room
    {
      txQueue := new byte[txCapacity](_ => 0);
      rxQueue := new byte[rxCapacity](_ => 0);
      txHead, txTail, txCount, txInflight := 0, 0, 0, 0;
      rxHead, rxTail, rxCount := 0, 0, 0;
      throttled, disconnected, phase := false, false, Resting;
      ttyRoom := room;
      accepted, sent, delivered := [], [], [];
    }

    // ---- Transmit ----

    /** tx_copy_in: as much of the buffer as there is room for, in at most two copies. */
    method TxCopyIn(buf: seq<byte>) returns (total: nat)
      requires TxShape()
      modifies this`txTail, this`txCount, txQueue
      ensures TxShape()
      ensures total == Min(|buf|, txQueue.Length - old(txCount))
      ensures TxBytes() == old(TxBytes()) + buf[..total]
    {
      hide Unrolled;
      total := Min(|buf|, txQueue.Length - txCount);
      if total == 0 {
        return;
      }
      ghost var before := txQueue[..];
      var first := Min(total, txQueue.Length - txTail);
      CopyInto(txQueue, txTail, buf[..first]);
      CopyInto(txQueue, 0, buf[first..total]);
      WriteBehindAppends(before, txQueue[..], txHead, txCount, buf[..total]);
      WrapIsMod(txTail + total, txQueue.Length);
      txTail := (txTail + total) % txQueue.Length;
      txCount := txCount + total;
    }

    /** tx_copy_out: the oldest bytes, left in the queue. */
    method TxCopyOut(count: nat) returns (chunk: seq<byte>)
      requires TxShape()
      ensures chunk == CopyOut(TxBytes(), count)
    {
      hide Unrolled;
      var total := Min(count, txCount);
      var first := Min(total, txQueue.Length - txHead);
      OldestBytes(txQueue[..], txHead, txCount, total);
      chunk := txQueue[txHead..txHead + first];
      var second := total - first;
      if second > 0 {
        chunk := chunk + txQueue[..second];
      }
      assert chunk == txQueue[..][txHead..txHead + first] + txQueue[..][..second];
    }

    /** tx_consume: drop the oldest bytes; an empty queue rewinds to the start of the buffer. */
    method TxConsume(n: nat)
      requires TxShape()
      modifies this`txHead, this`txTail, this`txCount
      ensures TxShape() && TxBytes() == Consume(old(TxBytes()), n)
    {
      var count := Min(n, txCount);
      AdvanceDrops(txQueue[..], txHead, txCount, count);
      WrapIsMod(txHead + count, txQueue.Length);
      txHead := (txHead + count) % txQueue.Length;
      txCount := txCount - count;
      if txCount == 0 {
        txHead, txTail := 0, 0;
      }
    }

    method TxReset()
      requires TxShape()
      modifies this`txHead, this`txTail, this`txCount, this`txInflight, this`accepted, this`sent
      ensures TxShape() && TxView() == Reset(old(TxView()))
    {
      txHead, txTail, txCount, txInflight := 0, 0, 0, 0;
      accepted, sent := [], [];
    }

    /** tty write: the number of bytes accepted, or None for the stored error when disconnected. */
    method Write(buf: seq<byte>) returns (written: Option<nat>)
      requires Shape()
      modifies this`txTail, this`txCount, this`accepted, txQueue
      ensures Shape() && TxView() == StepWrite(old(TxView()), buf)
      ensures written.None? <==> |buf| > 0 && disconnected
      ensures written.Some? ==> written.value == |Accepted(old(TxView()), buf)|
      ensures RxView() == old(RxView())
    {
      hide Unrolled, Wrap;
      ghost var before := TxView();
      assert before.queue + [] == before.queue && before.accepted + [] == before.accepted;
      if |buf| == 0 {
        return Some(0);
      }
      if disconnected {
        return None;
      }
      var n := TxCopyIn(buf);
      assert buf[..n] == Accepted(before, buf);
      accepted := accepted + buf[..n];
      written := Some(n);
    }

    /** write_room and chars_in_buffer: connected, they add up to the capacity. */
    method WriteRoom() returns (room: nat, pending: nat)
      requires Shape()
      ensures pending == |TxBytes()|
      ensures room == if disconnected then 0 else txQueue.Length - |TxBytes()|
    {
      room := if disconnected || txQueue.Length <= txCount then 0 else txQueue.Length - txCount;
      pending := txCount;
    }

    method RetireInflight()
      requires TxShape()
      modifies this`txHead, this`txTail, this`txCount, this`txInflight
      ensures TxShape() && TxView() == Retire(old(TxView()))
    {
      hide Unrolled, Wrap, Consume;
      if txInflight > 0 {
        TxConsume(txInflight);
        txInflight := 0;
      }
    }

    /** The first critical section of tx_work: consume what was committed, then copy out a chunk. */
    method WorkBegin()
      requires Shape()
      modifies this`txHead, this`txTail, this`txCount, this`txInflight, this`phase
      ensures Shape() && TxView() == StepWorkBegin(old(TxView()))
      ensures RxView() == old(RxView())
    {
      hide Unrolled, Wrap, Consume, Retire;
      if !phase.Resting? {
        return;
      }
      RetireInflight();
      if disconnected {
        return;
      }
      var chunk := TxCopyOut(CHUNK);
      if |chunk| == 0 {
        return;
      }
      phase := Phase.Sending(chunk);
    }

    /** The send outside the lock, whose outcome the daemon decides. */
    method Send(ok: bool)
      requires Shape() && phase.Sending?
      modifies this`txHead, this`txTail, this`txCount, this`txInflight, this`accepted, this`sent
      modifies this`phase, this`disconnected
      ensures Shape() && RxView() == old(RxView())
      ensures TxView() == if ok then StepSendOk(old(TxView())) else StepSendFailed(old(TxView()))
    {
      hide Unrolled, Wrap;
      if ok {
        sent := sent + phase.chunk;
        phase := Phase.Sent(|phase.chunk|);
      } else {
        phase := Resting;
        TxReset();
        disconnected := true;
      }
    }

    /** The last critical section of tx_work: remember how much the next round consumes. */
    method Commit()
      requires Shape() && phase.Sent?
      modifies this`txInflight, this`phase
      ensures Shape() && TxView() == StepCommit(old(TxView())) && RxView() == old(RxView())
    {
      txInflight := phase.len;
      phase := Resting;
    }

    /** mark_disconnected. */
    method MarkDisconnected()
      requires Shape()
      modifies this`txHead, this`txTail, this`txCount, this`txInflight, this`accepted, this`sent
      modifies this`disconnected
      ensures Shape() && TxView() == StepDropCarrier(old(TxView())) && RxView() == old(RxView())
    {
      disconnected := true;
      TxReset();
    }

    // ---- Receive ----

    /** tty_insert_flip_string: the tty takes as many of the bytes as it has room for. */
    method TtyInsert(data: seq<byte>) returns (written: nat)
      modifies this`delivered, this`ttyRoom
      ensures written == (if old(ttyRoom) == [] then |data| else Min(|data|, old(ttyRoom)[0]))
      ensures ttyRoom == if old(ttyRoom) == [] then [] else old(ttyRoom)[1..]
      ensures delivered == old(delivered) + data[..written]
    {
      written := |data|;
      if ttyRoom != [] {
        written := Min(written, ttyRoom[0]);
        ttyRoom := ttyRoom[1..];
      }
      delivered := delivered + data[..written];
    }

    /** One contiguous copy into the receive buffer. */
    method RxEnqueuePiece(data: seq<byte>) returns (chunk: nat)
      requires RxShape() && |data| > 0 && rxCount < rxQueue.Length
      modifies this`rxTail, this`rxCount, rxQueue
      ensures RxShape() && 0 < chunk <= |data| && rxCount == old(rxCount) + chunk
      ensures RxBytes() == old(RxBytes()) + data[..chunk]
    {
      hide Unrolled;
      chunk := Min(|data|, rxQueue.Length - rxTail);
      chunk := Min(chunk, rxQueue.Length - rxCount);
      ghost var before := rxQueue[..];
      CopyInto(rxQueue, rxTail, data[..chunk]);
      WriteBehindAppends(before, rxQueue[..], rxHead, rxCount, data[..chunk]);
      WrapIsMod(rxTail + chunk, rxQueue.Length);
      rxTail := (rxTail + chunk) % rxQueue.Length;
      rxCount := rxCount + chunk;
    }

    /** Queue as much as fits, a contiguous piece at a time. */
    method RxEnqueue(data: seq<byte>)
      requires RxShape()
      modifies this`rxTail, this`rxCount, rxQueue
      ensures RxShape()
      ensures RxBytes() == old(RxBytes()) + data[..Kept(rxQueue.Length, |old(RxBytes())|, |data|)]
    {
      hide Unrolled, Wrap;
      ghost var kept := Min(|data|, rxQueue.Length - rxCount);
      var done := 0;
      while done < |data| && rxCount < rxQueue.Length
        invariant RxShape() && 0 <= done <= kept
        invariant rxCount == old(rxCount) + done
        invariant RxBytes() == old(RxBytes()) + data[..done]
        decreases kept - done
      {
        ghost var q := RxBytes();
        var chunk := RxEnqueuePiece(data[done..]);
        assert data[done..][..chunk] == data[done..done + chunk];
        assert data[..done] + data[done..done + chunk] == data[..done + chunk];
        SplitAt(old(RxBytes()), data[..done + chunk], done);
        assert data[..done + chunk][..done] == data[..done];
        assert data[..done + chunk][done..] == data[done..done + chunk];
        done := done + chunk;
      }
    }

    /** Offer one contiguous run of queued bytes to the tty. */
    method RxDrainPiece() returns (chunk: nat, written: nat)
      requires RxShape() && rxCount > 0
      modifies this`rxHead, this`rxCount, this`delivered, this`ttyRoom
      ensures RxShape() && written <= chunk <= |old(RxBytes())| && 0 < chunk
      ensures Takes(old(ttyRoom), rxQueue.Length) ==> written == chunk && Takes(ttyRoom, rxQueue.Length)
      ensures RxBytes() == old(RxBytes())[written..] && rxCount == old(rxCount) - written
      ensures delivered == old(delivered) + old(RxBytes())[..written]
    {
      hide Unrolled;
      chunk := Min(rxCount, rxQueue.Length - rxHead);
      FirstPiece(rxQueue[..], rxHead, rxCount, chunk);
      assert rxQueue[rxHead..rxHead + chunk] == rxQueue[..][rxHead..rxHead + chunk];
      written := TtyInsert(rxQueue[rxHead..rxHead + chunk]);
      AdvanceDrops(rxQueue[..], rxHead, rxCount, written);
      WrapIsMod(rxHead + written, rxQueue.Length);
      rxHead := (rxHead + written) % rxQueue.Length;
      rxCount := rxCount - written;
    }

    /** Hand queued bytes to the tty, a contiguous piece at a time, until it takes less than offered. */
    method RxDrain() returns (ghost drained: nat)
      requires RxShape()
      modifies this`rxHead, this`rxCount, this`delivered, this`ttyRoom
      ensures RxShape()
      ensures drained <= |old(RxBytes())| && (throttled ==> drained == 0)
      ensures !throttled && Takes(old(ttyRoom), rxQueue.Length) ==> drained == |old(RxBytes())|
      ensures RxBytes() == old(RxBytes())[drained..]
      ensures delivered == old(delivered) + old(RxBytes())[..drained]
    {
      hide Unrolled, Wrap;
      ghost var all := RxBytes();
      drained := 0;
      while !throttled && rxCount > 0
        invariant RxShape() && drained <= |all| && (throttled ==> drained == 0)
        invariant RxBytes() == all[drained..] && delivered == old(delivered) + all[..drained]
        invariant rxCount == |all| - drained
        invariant Takes(old(ttyRoom), rxQueue.Length) ==> Takes(ttyRoom, rxQueue.Length)
        decreases rxCount
      {
        var chunk, written := RxDrainPiece();
        assert all[drained..][..written] == all[drained..drained + written];
        SplitAt(old(delivered), all[..drained + written], drained);
        assert all[..drained + written][..drained] == all[..drained];
        assert all[..drained + written][drained..] == all[drained..drained + written];
        drained := drained + written;
        if written == 0 || written < chunk {
          break;
        }
      }
    }

    /** inject_locked. */
    method Inject(data: seq<byte>)
      requires Shape()
      modifies this`rxHead, this`rxTail, this`rxCount, this`delivered, this`ttyRoom, rxQueue
      ensures Shape() && TxView() == old(TxView())
      ensures exists direct, drained :: Injects(old(RxView()), data, direct, drained, RxView())
      ensures !throttled && Takes(old(ttyRoom), rxQueue.Length) && Takes(old(ttyRoom), |data|) ==>
        RxBytes() == [] && (old(RxBytes()) == [] ==> delivered == old(delivered) + data)
    {
      hide Unrolled, Wrap, Kept, Injects;
      ghost var start := RxView();
      var direct := 0;
      if |data| > 0 && !throttled && rxCount == 0 {
        direct := TtyInsert(data);
      }
      RxEnqueue(data[direct..]);
      ghost var k := Kept(start.capacity, |start.queue|, |data| - direct);
      assert data[direct..][..k] == data[direct..direct + k];
      ghost var queued := RxView();
      ghost var drained := RxDrain();
      DrainsInto(start, data, direct, drained, queued, RxView());
      if direct == |data| {
        AllDirect(start, data, drained, RxView());
      }
    }

    method Throttle()
      requires Shape()
      modifies this`throttled
      ensures Shape() && TxView() == old(TxView()) && RxNext(old(RxView()), RxEvent.Throttle, RxView())
    {
      throttled := true;
    }

    method Unthrottle()
      requires Shape()
      modifies this`throttled, this`rxHead, this`rxTail, this`rxCount, this`delivered, this`ttyRoom, rxQueue
      ensures Shape() && TxView() == old(TxView()) && !throttled
      ensures Takes(old(ttyRoom), rxQueue.Length) ==>
        RxBytes() == [] && delivered == old(delivered) + old(RxBytes())
      ensures exists drained :: RxNext(old(RxView()), RxEvent.Unthrottle(drained), RxView())
    {
      hide Unrolled, Wrap, Kept, Injects;
      ghost var start := RxView();
      throttled := false;
      Inject([]);
      ghost var direct, drained :| Injects(start.(throttled := false), [], direct, drained, RxView());
      InjectsNothing(start.(throttled := false), direct, drained, RxView());
      assert RxNext(start, RxEvent.Unthrottle(drained), RxView());
    }
  }
}
