/** One SPI message end to end: packed by the kernel, answered by the daemon's device, scattered back. */
module SpiTransferModel {
  import opened Words
  import opened Wire
  import opened Faults
  import opened SpiModel
  import opened SpiScript

  datatype Dev = Dev(config: Config, fault: Fault, script: Script)

  datatype Answer = Answer(status: int, data: seq<byte>, dev: Option<Dev>)

  /** The daemon's answer to a packed request; dev is the device the request names, if it has one. */
  function Answered(p: seq<byte>, dev: Option<Dev>): Answer {
    match Decode(p, if dev.Some? then Some(dev.value.config) else None)
    case Err(status) => Answer(status, [], dev)
    case Ok(transfers) =>
      if dev.None? then Answer(ENOENT, [], dev)
      else
        var d := dev.value;
        match PreStatus(d.fault)
        case Some(status) => Answer(status, [], Some(d.(fault := Consumed(d.fault))))
        case None =>
          var (script, data) := HandleAll(d.script, transfers);
          Answer(0, Shortened(d.fault, data), Some(d.(script := script, fault := Consumed(d.fault))))
  }

  lemma {:induction false} RefusalIsNegative(c: Config, p: seq<byte>, n: nat)
    requires PREFIX + DESC * n <= |p|
    ensures FirstRefusal(c, p, n).Some? ==> FirstRefusal(c, p, n).value < 0
  {
    hide FieldsAt;
    if n > 0 {
      RefusalIsNegative(c, p, n - 1);
    }
  }

  lemma StatusIsNeverPositive(p: seq<byte>, dev: Option<Dev>)
    ensures Answered(p, dev).status <= 0
  {
    hide HandleAll, U32At, Requests, FirstRefusal;
    if |p| >= PREFIX && |p| >= PREFIX + DESC * U32At(p, 12) && dev.Some? {
      RefusalIsNegative(dev.value.config, p, U32At(p, 12));
    }
  }

  /** ret is what the kernel returns, reply the bytes it scatters when ret is a byte count. */
  datatype Outcome = Outcome(ret: int, reply: seq<byte>, dev: Option<Dev>)

  predicate Fits(xs: seq<Xfer>) {
    PREFIX + DESC * |xs| + SpiModel.TotalLen(xs) <= MAX_PAYLOAD
  }

  function Completed(total: nat, status: int, data: seq<byte>): (int, seq<byte>) {
    var (st, response) := Received(total, status, data);
    if st != 0 then (st, [])
    else if |response| != total then (EPROTO, [])
    else (total, response)
  }

  function Transfer(handle: u32, bus: u32, spi: Spi, xs: seq<Xfer>, dev: Option<Dev>): Outcome
    requires AllValid(xs)
  {
    if |xs| > MAX_XFERS then Outcome(EOPNOTSUPP, [], dev)
    else if !Fits(xs) then Outcome(EMSGSIZE, [], dev)
    else if exists i :: 0 <= i < |xs| && !LanesAccepted(xs[i]) then Outcome(EOPNOTSUPP, [], dev)
    else
      var a := Answered(Encode(handle, bus, spi, xs), dev);
      var (ret, reply) := Completed(SpiModel.TotalLen(xs), a.status, a.data);
      Outcome(ret, reply, a.dev)
  }

  // Running the script directly on the transfers.

  function Direct(s: Script, xs: seq<Xfer>): Script
    requires AllValid(xs)
    decreases |xs|
  {
    if xs == [] then s else Handle(Direct(s, Init(xs)), Sent(Last(xs)), Last(xs).len).0
  }

  /** What the i-th transfer clocks in when the script answers the transfers one by one. */
  function DirectReply(s: Script, xs: seq<Xfer>, i: nat): (r: seq<byte>)
    requires AllValid(xs) && i < |xs|
    ensures |r| == xs[i].len
  {
    Handle(Direct(s, xs[..i]), Sent(xs[i]), xs[i].len).1
  }

  function ReplyPart(xs: seq<Xfer>, reply: seq<byte>, i: nat): seq<byte>
    requires i < |xs| && SpiModel.TotalLen(xs[..i]) <= SpiModel.TotalLen(xs[..i + 1]) <= |reply|
  {
    reply[SpiModel.TotalLen(xs[..i])..SpiModel.TotalLen(xs[..i + 1])]
  }

  /** The i-th transfer gets from the reply what the script answers it directly. */
  predicate Clocked(s: Script, xs: seq<Xfer>, reply: seq<byte>, i: nat)
    requires AllValid(xs)
  {
    && i < |xs| && SpiModel.TotalLen(xs[..i]) <= SpiModel.TotalLen(xs[..i + 1]) <= |reply|
    && ReplyPart(xs, reply, i) == DirectReply(s, xs, i)
  }

  lemma {:induction false} TotalLenGrows(xs: seq<Xfer>, i: nat)
    requires i < |xs|
    ensures SpiModel.TotalLen(xs[..i + 1]) == SpiModel.TotalLen(xs[..i]) + xs[i].len
    ensures SpiModel.TotalLen(xs[..i + 1]) <= SpiModel.TotalLen(xs)
    decreases |xs|
  {
    InitOfPrefix(xs, i);
    if i == |xs| - 1 {
      assert xs[..i + 1] == xs;
    } else {
      TotalLenGrows(Init(xs), i);
      assert Init(xs)[..i] == xs[..i] && Init(xs)[..i + 1] == xs[..i + 1];
    }
  }

  lemma SeenStep(spi: Spi, xs: seq<Xfer>)
    requires AllValid(xs) && xs != []
    ensures AllValid(Init(xs)) && AllSeen(spi, xs) != []
    ensures Init(AllSeen(spi, xs)) == AllSeen(spi, Init(xs))
    ensures Last(AllSeen(spi, xs)).tx == Sent(Last(xs)) && Last(AllSeen(spi, xs)).len == Last(xs).len
  {
    hide Usecs;
    assert Init(AllSeen(spi, xs)) == AllSeen(spi, Init(xs));
  }

  lemma {:induction false} HandleAllIsDirect(s: Script, spi: Spi, xs: seq<Xfer>)
    requires AllValid(xs)
    ensures HandleAll(s, AllSeen(spi, xs)).0 == Direct(s, xs)
    ensures |HandleAll(s, AllSeen(spi, xs)).1| == SpiModel.TotalLen(xs)
    decreases |xs|
  {
    hide Handle, Seen;
    if xs != [] {
      SeenStep(spi, xs);
      HandleAllIsDirect(s, spi, Init(xs));
    }
  }

  lemma HandleAllStep(s: Script, spi: Spi, xs: seq<Xfer>)
    requires AllValid(xs) && xs != []
    ensures AllValid(Init(xs))
    ensures
      HandleAll(s, AllSeen(spi, xs)).1
        == HandleAll(s, AllSeen(spi, Init(xs))).1 + Handle(Direct(s, Init(xs)), Sent(Last(xs)), Last(xs).len).1
  {
    hide Handle, Seen;
    SeenStep(spi, xs);
    HandleAllIsDirect(s, spi, Init(xs));
  }

  lemma {:induction false} PartIsDirectReply(s: Script, spi: Spi, xs: seq<Xfer>, i: nat)
    requires AllValid(xs) && i < |xs|
    ensures |HandleAll(s, AllSeen(spi, xs)).1| == SpiModel.TotalLen(xs)
    ensures Clocked(s, xs, HandleAll(s, AllSeen(spi, xs)).1, i)
    decreases |xs|
  {
    hide Handle, HandleAll, Direct, AllSeen, SpiModel.TotalLen, Sent;
    var short := Init(xs);
    HandleAllIsDirect(s, spi, xs);
    HandleAllIsDirect(s, spi, short);
    HandleAllStep(s, spi, xs);
    TotalLenGrows(xs, i);
    if i == |xs| - 1 {
      assert xs[..i] == short && xs[..i + 1] == xs;
    } else {
      PartIsDirectReply(s, spi, short, i);
      assert short[..i] == xs[..i] && short[..i + 1] == xs[..i + 1];
    }
  }

  /** A message the kernel and the daemon both serve. */
  predicate Transferable(spi: Spi, xs: seq<Xfer>, d: Dev) {
    && 1 <= |xs| <= MAX_XFERS && Fits(xs)
    && (forall i :: 0 <= i < |xs| ==> LanesAccepted(xs[i]))
    && d.config.chipSelect == spi.chipSelect
  }

  lemma AnswerOfTransfer(handle: u32, bus: u32, spi: Spi, xs: seq<Xfer>, d: Dev)
    requires AllValid(xs) && Transferable(spi, xs, d) && d.fault == NoFault
    ensures
      Answered(Encode(handle, bus, spi, xs), Some(d)) ==
      if forall i :: 0 <= i < |xs| ==> WordsAccepted(spi, xs[i]) then
        Answer(0, HandleAll(d.script, AllSeen(spi, xs)).1, Some(d.(script := Direct(d.script, xs))))
      else
        Answer(EOPNOTSUPP, [], Some(d))
  {
    hide Decode, Encode, HandleAll, Direct, AllSeen, SpiModel.TotalLen, WordsAccepted, LanesAccepted;
    DecodeEncode(handle, bus, spi, xs, d.config);
    HandleAllIsDirect(d.script, spi, xs);
  }

  /**
    * Without a fault the transfer is refused exactly when a non-empty transfer has words above 32 bits.
    * Otherwise it returns its byte count, never -EPROTO, every transfer clocks in what the script answers
    * to its bytes, and the script is left as answering the transfers one by one leaves it.
    */
  lemma {:induction false} TransferRunsTheScript(handle: u32, bus: u32, spi: Spi, xs: seq<Xfer>, d: Dev)
    requires AllValid(xs) && Transferable(spi, xs, d) && d.fault == NoFault
    ensures
      var o := Transfer(handle, bus, spi, xs, Some(d));
      if forall i :: 0 <= i < |xs| ==> WordsAccepted(spi, xs[i]) then
        && o.ret == SpiModel.TotalLen(xs) == |o.reply|
        && o.dev == Some(d.(script := Direct(d.script, xs)))
        && forall i :: 0 <= i < |xs| ==> Clocked(d.script, xs, o.reply, i)
      else
        o == Outcome(EOPNOTSUPP, [], Some(d))
  {
    hide Answered, Encode, HandleAll, Direct, AllSeen, SpiModel.TotalLen, Clocked, WordsAccepted, LanesAccepted;
    AnswerOfTransfer(handle, bus, spi, xs, d);
    HandleAllIsDirect(d.script, spi, xs);
    var data := HandleAll(d.script, AllSeen(spi, xs)).1;
    assert data[..SpiModel.TotalLen(xs)] == data;
    forall i | 0 <= i < |xs|
      ensures Clocked(d.script, xs, data, i)
    {
      PartIsDirectReply(d.script, spi, xs, i);
    }
  }

  predicate AllWordsAccepted(spi: Spi, xs: seq<Xfer>) {
    forall i :: 0 <= i < |xs| ==> WordsAccepted(spi, xs[i])
  }

  lemma AnswerUnderFault(handle: u32, bus: u32, spi: Spi, xs: seq<Xfer>, d: Dev)
    requires AllValid(xs) && Transferable(spi, xs, d) && AllWordsAccepted(spi, xs)
    ensures
      Answered(Encode(handle, bus, spi, xs), Some(d)) ==
      match PreStatus(d.fault)
      case Some(status) => Answer(status, [], Some(d.(fault := Consumed(d.fault))))
      case None =>
        Answer(0, Shortened(d.fault, HandleAll(d.script, AllSeen(spi, xs)).1),
               Some(d.(script := Direct(d.script, xs), fault := Consumed(d.fault))))
  {
    hide Decode, Encode, HandleAll, Direct, AllSeen, SpiModel.TotalLen, WordsAccepted, LanesAccepted, Shortened;
    DecodeEncode(handle, bus, spi, xs, d.config);
    HandleAllIsDirect(d.script, spi, xs);
  }

  /** Timeout, disconnect and errno faults never reach the script, and the kernel returns their error. */
  lemma {:induction false} HardFaultsSpareTheScript(handle: u32, bus: u32, spi: Spi, xs: seq<Xfer>, d: Dev)
    requires AllValid(xs) && Transferable(spi, xs, d) && AllWordsAccepted(spi, xs)
    requires d.fault.Timeout? || d.fault.Disconnect? || (d.fault.Errno? && d.fault.code > 0)
    ensures
      Transfer(handle, bus, spi, xs, Some(d))
        == Outcome(match d.fault
                   case Timeout(_) => ETIMEDOUT
                   case Disconnect(_) => ENODEV
                   case Errno(code, _) => 0 - code
                   case _ => 0,
                   [], Some(d.(fault := Consumed(d.fault))))
  {
    hide Answered, Encode, SpiModel.TotalLen, WordsAccepted, LanesAccepted;
    AnswerUnderFault(handle, bus, spi, xs, d);
  }

  /**
    * Under a short-reply fault the script still answers; the message is a protocol error exactly when the
    * injected reply, or half of a reply of at least two bytes, is shorter than the message.
    */
  lemma {:induction false} ShortReplyIsProtocolErrorIff(handle: u32, bus: u32, spi: Spi, xs: seq<Xfer>, d: Dev)
    requires AllValid(xs) && Transferable(spi, xs, d) && AllWordsAccepted(spi, xs) && d.fault.ShortReply?
    ensures
      var o := Transfer(handle, bus, spi, xs, Some(d));
      var total := SpiModel.TotalLen(xs);
      var starved := if d.fault.reply == [] then total >= 2 else |d.fault.reply| < total;
      && o.ret == (if REPLY_PREFIX + |d.fault.reply| > MAX_PAYLOAD then ETIMEDOUT
                   else if starved then EPROTO else total)
      && o.dev == Some(d.(script := Direct(d.script, xs), fault := Consumed(d.fault)))
  {
    hide Answered, Encode, HandleAll, Direct, AllSeen, SpiModel.TotalLen, WordsAccepted, LanesAccepted;
    AnswerUnderFault(handle, bus, spi, xs, d);
    HandleAllIsDirect(d.script, spi, xs);
  }

  /** A message without transfers is packed and sent, but always refused. */
  lemma EmptyMessageIsRefused(handle: u32, bus: u32, spi: Spi, d: Option<Dev>)
    ensures Transfer(handle, bus, spi, [], d) == Outcome(EOPNOTSUPP, [], d)
  {
    hide U32At, LE32;
    EncodedPrefix(handle, bus, spi, []);
  }
}
