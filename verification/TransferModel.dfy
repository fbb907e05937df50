/** One I2C transfer end to end: packed by the kernel, answered by the daemon's device, scattered back. */
module TransferModel {
  import opened Words
  import opened Wire
  import opened Faults
  import opened I2cModel
  import opened BankModel

  datatype Dev = Dev(address: u16, fault: Fault, bank: Bank)

  datatype Answer = Answer(status: int, data: seq<byte>, dev: Option<Dev>)

  /** The daemon's answer to a packed request; dev is the device the request names, if it has one. */
  ghost function Answered(p: seq<byte>, dev: Option<Dev>): Answer
    requires dev.Some? ==> dev.value.bank.Valid()
  {
    match Decode(p)
    case Err(status) => Answer(status, [], dev)
    case Ok(request) =>
      if dev.None? then Answer(ENOENT, [], dev)
      else
        var d := dev.value;
        match PreStatus(d.fault)
        case Some(status) => Answer(status, [], Some(d.(fault := Consumed(d.fault))))
        case None =>
          if exists i :: 0 <= i < |request.messages| && request.messages[i].addr != d.address then
            Answer(EOPNOTSUPP, [], dev)
          else
            var (bank, data) := Served(d.bank, request.messages);
            Answer(0, Shortened(d.fault, data), Some(d.(bank := bank, fault := Consumed(d.fault))))
  }

  /** ret is what the kernel returns, reply the bytes it scatters when ret is a message count. */
  datatype Outcome = Outcome(ret: int, reply: seq<byte>, dev: Option<Dev>)

  predicate OneAddress(ms: seq<Msg>) {
    forall i :: 0 <= i < |ms| ==> ms[i].addr == ms[0].addr
  }

  predicate RequestFits(ms: seq<Msg>) {
    PREFIX + DESC * |ms| + |Written(ms)| <= MAX_PAYLOAD && RxLen(ms) <= MAX_PAYLOAD
  }

  /** What the kernel makes of it, for a transfer of num messages that reads rxLen bytes. */
  function Completed(num: nat, rxLen: nat, status: int, data: seq<byte>): (int, seq<byte>) {
    var (st, response) := Received(rxLen, status, data);
    if st != 0 then (st, [])
    else if |response| != rxLen then (EPROTO, [])
    else (num, response)
  }

  ghost function Transfer(handle: u32, bus: u32, ms: seq<Msg>, dev: Option<Dev>): Outcome
    requires AllValid(ms) && (dev.Some? ==> dev.value.bank.Valid())
  {
    if |ms| == 0 || |ms| > MAX_MSGS || !OneAddress(ms) then Outcome(EOPNOTSUPP, [], dev)
    else if !RequestFits(ms) then Outcome(EMSGSIZE, [], dev)
    else
      var a := Answered(Encode(handle, bus, ms), dev);
      var (ret, reply) := Completed(|ms|, RxLen(ms), a.status, a.data);
      Outcome(ret, reply, a.dev)
  }

  lemma StatusIsNeverPositive(p: seq<byte>, dev: Option<Dev>)
    requires dev.Some? ==> dev.value.bank.Valid()
    ensures Answered(p, dev).status <= 0
  {
    hide Served, U32At, Requests;
  }

  /** What the kernel sends and the daemon takes for the device. */
  predicate Sendable(ms: seq<Msg>, d: Dev) {
    && 1 <= |ms| <= MAX_MSGS
    && (forall i :: 0 <= i < |ms| ==> ms[i].addr == d.address)
    && RequestFits(ms)
  }

  predicate Transferable(ms: seq<Msg>, d: Dev) {
    Sendable(ms, d) && REPLY_PREFIX + RxLen(ms) <= MAX_PAYLOAD
  }

  lemma AnswerOfTransfer(handle: u32, bus: u32, ms: seq<Msg>, d: Dev)
    requires AllValid(ms) && d.bank.Valid() && Sendable(ms, d)
    requires d.fault.NoFault? || d.fault.ShortReply?
    ensures
      var data := Served(d.bank, AllSeen(ms)).1;
      Answered(Encode(handle, bus, ms), Some(d))
        == Answer(0, Shortened(d.fault, data), Some(d.(bank := Direct(d.bank, ms), fault := Consumed(d.fault))))
  {
    hide Decode, Encode, Served, Direct, Written, RxLen, Shortened;
    DecodeEncode(handle, bus, ms);
    ServedIsDirect(d.bank, ms);
  }

  /**
    * Without a fault a transfer that fits returns its message count, never -EPROTO, leaves the bank as the
    * messages run directly on it would, and gives each read message the bytes it would read directly.
    */
  lemma {:induction false} TransferRunsOnTheBank(handle: u32, bus: u32, ms: seq<Msg>, d: Dev)
    requires AllValid(ms) && d.bank.Valid() && Transferable(ms, d) && d.fault == NoFault
    ensures
      var o := Transfer(handle, bus, ms, Some(d));
      && o.ret == |ms|
      && o.dev == Some(d.(bank := Direct(d.bank, ms)))
      && |o.reply| == RxLen(ms)
      && forall i :: 0 <= i < |ms| && ms[i].Reads() ==>
        && RxLen(ms[..i]) <= RxLen(ms[..i + 1]) <= |o.reply|
        && ReplyPart(ms, o.reply, i) == DirectRead(d.bank, ms, i)
  {
    hide Answered, Encode, Served, Direct, Written, RxLen, ReplyPart, DirectRead;
    AnswerOfTransfer(handle, bus, ms, d);
    ServedIsDirect(d.bank, ms);
    forall i | 0 <= i < |ms| && ms[i].Reads()
      ensures RxLen(ms[..i]) <= RxLen(ms[..i + 1]) <= RxLen(ms)
      ensures ReplyPart(ms, Served(d.bank, AllSeen(ms)).1, i) == DirectRead(d.bank, ms, i)
    {
      PartIsDirectRead(d.bank, ms, i);
    }
    var data := Served(d.bank, AllSeen(ms)).1;
    assert data[..RxLen(ms)] == data;
  }

  /**
    * Without a fault the bank runs the messages, and the transfer succeeds if and only if the reply fits a
    * payload. The kernel also sends reads of the last eight lengths, whose reply is never written.
    */
  lemma {:induction false} TransferTimesOutIff(handle: u32, bus: u32, ms: seq<Msg>, d: Dev)
    requires AllValid(ms) && d.bank.Valid() && Sendable(ms, d) && d.fault == NoFault
    ensures
      var o := Transfer(handle, bus, ms, Some(d));
      && o.dev == Some(d.(bank := Direct(d.bank, ms)))
      && o.ret == (if REPLY_PREFIX + RxLen(ms) <= MAX_PAYLOAD then |ms| else ETIMEDOUT)
  {
    hide Answered, Encode, Served, Direct, Written, RxLen;
    AnswerOfTransfer(handle, bus, ms, d);
    ServedIsDirect(d.bank, ms);
  }

  /**
    * Under a short-reply fault the bank still runs the messages; the transfer is a protocol error exactly
    * when the injected reply, or the shorter half of a reply of at least two bytes, cannot fill the reads.
    */
  lemma {:induction false} ShortReplyIsProtocolErrorIff(handle: u32, bus: u32, ms: seq<Msg>, d: Dev)
    requires AllValid(ms) && d.bank.Valid() && Sendable(ms, d) && d.fault.ShortReply?
    ensures
      var o := Transfer(handle, bus, ms, Some(d));
      var starved := if d.fault.reply == [] then RxLen(ms) >= 2 else |d.fault.reply| < RxLen(ms);
      && o.ret == (if REPLY_PREFIX + |d.fault.reply| > MAX_PAYLOAD then ETIMEDOUT
                   else if starved then EPROTO else |ms|)
      && o.dev == Some(d.(bank := Direct(d.bank, ms), fault := Consumed(d.fault)))
  {
    hide Answered, Encode, Served, Direct, Written, RxLen;
    AnswerOfTransfer(handle, bus, ms, d);
    ServedIsDirect(d.bank, ms);
  }

  /** What the kernel returns under a fault that answers for the device; an errno of zero is an empty reply. */
  function FaultReturn(f: Fault, num: nat, rxLen: nat): int {
    match f
    case Timeout(_) => ETIMEDOUT
    case Disconnect(_) => ENODEV
    case Errno(code, _) => if code > 0 then 0 - code else if rxLen == 0 then num else EPROTO
    case _ => num
  }

  /** The other faults never reach the bank, and the kernel returns their error. */
  lemma {:induction false} HardFaultsSpareTheBank(handle: u32, bus: u32, ms: seq<Msg>, d: Dev)
    requires AllValid(ms) && d.bank.Valid() && Sendable(ms, d)
    requires d.fault.Timeout? || d.fault.Disconnect? || d.fault.Errno?
    ensures
      var o := Transfer(handle, bus, ms, Some(d));
      && o.ret == FaultReturn(d.fault, |ms|, RxLen(ms)) && o.dev == Some(d.(fault := Consumed(d.fault)))
  {
    hide Decode, Encode, Served, Direct, Written, RxLen;
    DecodeEncode(handle, bus, ms);
  }
}
