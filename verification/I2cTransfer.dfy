/** The I2C transfer as the kernel and the daemon execute it, refining TransferModel. */
module I2cTransfer {
  import opened Words
  import opened Wire
  import opened Faults
  import opened I2cModel
  import opened BankModel
  import opened TransferModel
  import opened I2cDevice

  // Kernel side: messages with caller-owned buffers.

  class I2cMsg {
    const addr: u16
    const flags: u16
    const buf: array<byte>

    constructor (addr: u16, flags: u16, buf: array<byte>)
      ensures this.addr == addr && this.flags == flags && this.buf == buf
    {
      this.addr := addr;
      this.flags := flags;
      this.buf := buf;
    }

    predicate Reads() { flags % 2 == 1 }

    ghost function Value(): Msg
      reads buf
    {
      Msg(addr, flags, buf[..])
    }
  }

  ghost function Buffers(msgs: seq<I2cMsg>): set<object> {
    set m | m in msgs :: m.buf
  }

  ghost function ReadBuffers(msgs: seq<I2cMsg>): set<object> {
    set m | m in msgs && m.Reads() :: m.buf
  }

  ghost predicate Sized(msgs: seq<I2cMsg>) {
    forall m :: m in msgs ==> m.buf.Length < U16
  }

  ghost function Snapshot(msgs: seq<I2cMsg>): (ms: seq<Msg>)
    reads Buffers(msgs)
    ensures |ms| == |msgs|
    ensures forall i :: 0 <= i < |msgs| ==> ms[i] == msgs[i].Value()
    ensures Sized(msgs) ==> AllValid(ms)
  {
    if msgs == [] then [] else Snapshot(Init(msgs)) + [Last(msgs).Value()]
  }

  lemma NothingYet(ms: seq<Msg>)
    ensures RxLen(ms[..0]) == 0 && Written(ms[..0]) == [] && Written([]) == []
  {
  }

  lemma WrittenGrows(ms: seq<Msg>, i: nat)
    requires i < |ms|
    ensures Written(ms[..i + 1]) == Written(ms[..i]) + (if ms[i].Reads() then [] else ms[i].buf)
  {
    InitOfPrefix(ms, i);
  }

  /** The first pass over the messages: one address, and the bytes to send and to receive. */
  method Measure(msgs: seq<I2cMsg>) returns (sameAddr: bool, rxLen: nat, dataLen: nat)
    requires msgs != [] && Sized(msgs)
    ensures sameAddr <==> OneAddress(Snapshot(msgs))
    ensures sameAddr ==> rxLen == RxLen(Snapshot(msgs)) && dataLen == |Written(Snapshot(msgs))|
    ensures dataLen <= 65535 * |msgs|
  {
    hide RxLen, Written;
    ghost var ms := Snapshot(msgs);
    NothingYet(ms);
    rxLen, dataLen := 0, 0;
    var i := 0;
    while i < |msgs|
      invariant i <= |msgs|
      invariant forall j :: 0 <= j < i ==> ms[j].addr == ms[0].addr
      invariant rxLen == RxLen(ms[..i]) && dataLen == |Written(ms[..i])|
      invariant dataLen <= 65535 * i
    {
      if msgs[i].addr != msgs[0].addr {
        assert ms[i].addr != ms[0].addr;
        return false, rxLen, dataLen;
      }
      RxLenGrows(ms, i);
      WrittenGrows(ms, i);
      if msgs[i].Reads() {
        rxLen := rxLen + msgs[i].buf.Length;
      } else {
        dataLen := dataLen + msgs[i].buf.Length;
      }
      i := i + 1;
    }
    assert ms[..i] == ms;
    assert ms == Snapshot(msgs);
    sameAddr := true;
  }

  lemma ZeroField()
    ensures LE16(0) == Zeros(2)
  {
  }

  lemma MessagePacked(req: seq<byte>, req': seq<byte>, req'': seq<byte>, head: seq<byte>, ms: seq<Msg>, i: nat)
    requires AllValid(ms) && i < |ms|
    requires Filled(req, head, Descriptors(ms[..i]), DESC * |ms|, Written(ms[..i]))
    requires CopiedTo(req, req', |head| + DESC * i, LE16(ms[i].addr) + LE16(ms[i].flags) + LE16(|ms[i].buf|))
    requires
      if ms[i].Reads() then req'' == req'
      else CopiedTo(req', req'', |head| + DESC * |ms| + |Written(ms[..i])|, ms[i].buf)
    ensures Filled(req'', head, Descriptors(ms[..i + 1]), DESC * |ms|, Written(ms[..i + 1]))
  {
    hide Written, LE16, Filled, CopiedTo;
    var d := LE16(ms[i].addr) + LE16(ms[i].flags) + LE16(|ms[i].buf|);
    ZeroField();
    InitOfPrefix(ms, i);
    assert Descriptors(ms[..i + 1]) == Descriptors(ms[..i]) + (d + Zeros(2));
    PutDescriptor(req, req', head, Descriptors(ms[..i]), DESC * |ms|, Written(ms[..i]), d, 2);
    WrittenGrows(ms, i);
    if ms[i].Reads() {
      assert Written(ms[..i + 1]) == Written(ms[..i]);
    } else {
      PutData(req', req'', head, Descriptors(ms[..i + 1]), DESC * |ms|, Written(ms[..i]), ms[i].buf);
    }
  }

  method WriteDescriptor(req: array<byte>, o: nat, addr: u16, flags: u16, len: u16)
    requires o + DESC <= req.Length
    modifies req
    ensures CopiedTo(old(req[..]), req[..], o, LE16(addr) + LE16(flags) + LE16(len))
  {
    hide LE16;
    CopyInto(req, o, LE16(addr));
    CopyInto(req, o + 2, LE16(flags));
    CopyInto(req, o + 4, LE16(len));
  }

  method WritePrefix(req: array<byte>, device: u32, bus: u32, num: u32, dataLen: u32)
    requires PREFIX <= req.Length
    modifies req
    ensures CopiedTo(old(req[..]), req[..], 0, Prefix(device, bus, num, dataLen))
  {
    hide LE32;
    CopyInto(req, 0, LE32(device));
    CopyInto(req, 4, LE32(bus));
    CopyInto(req, 8, LE32(num));
    CopyInto(req, 12, LE32(dataLen));
  }

  /** Packs one message behind those already packed. */
  method PackMessage(req: array<byte>, txData: nat, offset: nat, m: I2cMsg,
                     ghost head: seq<byte>, ghost ms: seq<Msg>, i: nat)
    requires AllValid(ms) && i < |ms| && req != m.buf && m.buf.Length < U16 && ms[i] == m.Value()
    requires |head| == PREFIX && txData == PREFIX + DESC * |ms| && offset == |Written(ms[..i])|
    requires req.Length == txData + |Written(ms)|
    requires Filled(req[..], head, Descriptors(ms[..i]), DESC * |ms|, Written(ms[..i]))
    modifies req
    ensures Filled(req[..], head, Descriptors(ms[..i + 1]), DESC * |ms|, Written(ms[..i + 1]))
  {
    hide Written, Filled, CopiedTo, LE16;
    ghost var before := req[..];
    WrittenPiece(ms, i);
    WriteDescriptor(req, PREFIX + DESC * i, m.addr, m.flags, m.buf.Length);
    ghost var between := req[..];
    if !m.Reads() {
      CopyInto(req, txData + offset, m.buf[..]);
    }
    MessagePacked(before, between, req[..], head, ms, i);
  }

  /** Packs the request in a zeroed buffer: prefix, descriptors, then the bytes of the writes. */
  method Pack(handle: u32, bus: u32, msgs: seq<I2cMsg>, dataLen: u32) returns (req: array<byte>)
    requires Sized(msgs) && |msgs| < U32 && dataLen == |Written(Snapshot(msgs))|
    ensures fresh(req)
    ensures req[..] == Encode(handle, bus, old(Snapshot(msgs)))
  {
    hide Written, LE32, LE16, Filled, CopiedTo, Prefix;
    ghost var ms := Snapshot(msgs);
    var n := |msgs|;
    var txData := PREFIX + DESC * n;
    req := new byte[txData + dataLen](_ => 0);
    ghost var zeroed := req[..];
    WritePrefix(req, handle, bus, n, dataLen);
    ghost var head := Prefix(handle, bus, n, dataLen);
    StartFilling(zeroed, req[..], head, DESC * n);
    NothingYet(ms);
    var i, offset := 0, 0;
    while i < n
      invariant i <= n && fresh(req) && req.Length == txData + dataLen
      invariant Filled(req[..], head, Descriptors(ms[..i]), DESC * n, Written(ms[..i]))
      invariant offset == |Written(ms[..i])|
    {
      WrittenGrows(ms, i);
      PackMessage(req, txData, offset, msgs[i], head, ms, i);
      if !msgs[i].Reads() {
        offset := offset + msgs[i].buf.Length;
      }
      i := i + 1;
    }
    assert ms[..i] == ms;
    FilledCompletely(req[..], head, Descriptors(ms), Written(ms));
  }

  ghost predicate ReadsApart(msgs: seq<I2cMsg>) {
    forall i, j :: 0 <= i < j < |msgs| && msgs[i].Reads() && msgs[j].Reads() ==> msgs[i].buf != msgs[j].buf
  }

  /** The i-th message holds its part of the reply. */
  ghost predicate Got(m: I2cMsg, ms: seq<Msg>, reply: seq<byte>, i: nat)
    reads m.buf
  {
    && i < |ms| && RxLen(ms[..i]) <= RxLen(ms[..i + 1]) <= |reply|
    && m.buf[..] == ReplyPart(ms, reply, i)
  }

  lemma HoldsPart(m: I2cMsg, ms: seq<Msg>, reply: seq<byte>, i: nat)
    requires i < |ms| && RxLen(ms[..i]) <= RxLen(ms[..i + 1]) <= |reply|
    requires m.buf[..] == reply[RxLen(ms[..i])..RxLen(ms[..i + 1])]
    ensures Got(m, ms, reply, i)
  {
  }

  /** Copies the reply into the read messages, one part after the other. */
  method Scatter(msgs: seq<I2cMsg>, reply: seq<byte>)
    requires Sized(msgs) && ReadsApart(msgs) && |reply| == RxLen(Snapshot(msgs))
    modifies ReadBuffers(msgs)
    ensures forall i :: 0 <= i < |msgs| && msgs[i].Reads() ==> Got(msgs[i], old(Snapshot(msgs)), reply, i)
  {
    hide RxLen, ReplyPart, Got;
    ghost var ms := Snapshot(msgs);
    NothingYet(ms);
    var i, offset := 0, 0;
    while i < |msgs|
      invariant i <= |msgs|
      invariant offset == RxLen(ms[..i])
      invariant forall j :: 0 <= j < i && msgs[j].Reads() ==> Got(msgs[j], ms, reply, j)
    {
      RxLenGrows(ms, i);
      if msgs[i].Reads() {
        var len := msgs[i].buf.Length;
        var part := reply[offset..offset + len];
        CopyInto(msgs[i].buf, 0, part);
        assert msgs[i].buf[..] == part;
        HoldsPart(msgs[i], ms, reply, i);
        offset := offset + len;
      }
      i := i + 1;
    }
  }

  /** The buffers a transfer fills are not the daemon's memory. */
  ghost predicate Apart(daemon: I2cDaemon, handle: u32, msgs: seq<I2cMsg>)
    reads daemon`devices
  {
    Buffers(msgs) !! daemon.Touched(handle)
  }

  /** Sends a packed request to the daemon and waits for the reply command. */
  method SendRequest(daemon: I2cDaemon, handle: u32, payload: seq<byte>, capacity: nat)
    returns (status: int, response: seq<byte>)
    requires daemon.Ready(handle) && I2cDaemon.Named(payload) == handle
    modifies daemon.Touched(handle)
    ensures daemon.Ready(handle) && status <= 0
    ensures
      var a := Answered(payload, old(daemon.View(handle)));
      (status, response) == Received(capacity, a.status, a.data) && daemon.View(handle) == a.dev
  {
    hide Answered;
    StatusIsNeverPositive(payload, daemon.View(handle));
    var data: seq<byte>;
    status, data := daemon.HandleI2cRequest(payload);
    response := [];
    if REPLY_PREFIX + |data| > MAX_PAYLOAD {
      status := ETIMEDOUT;
    } else if status == 0 {
      var copyLen := if capacity < |data| then capacity else |data|;
      response := data[..copyLen];
    }
  }

  /** A whole transfer: pack, let the daemon answer, take the reply, scatter. */
  method I2cExec(daemon: I2cDaemon, handle: u32, bus: u32, msgs: seq<I2cMsg>) returns (ret: int)
    requires Sized(msgs) && ReadsApart(msgs) && Apart(daemon, handle, msgs) && daemon.Ready(handle)
    modifies ReadBuffers(msgs), daemon.Touched(handle)
    ensures daemon.Ready(handle)
    ensures
      var o := old(Transfer(handle, bus, Snapshot(msgs), daemon.View(handle)));
      && ret == o.ret && daemon.View(handle) == o.dev
      && (ret > 0 ==> |o.reply| == old(RxLen(Snapshot(msgs)))
                      && forall i :: 0 <= i < |msgs| && msgs[i].Reads() ==>
                           Got(msgs[i], old(Snapshot(msgs)), o.reply, i))
      && (ret <= 0 ==> Snapshot(msgs) == old(Snapshot(msgs)))
  {
    hide RxLen, Written, Got, Answered, Encode, Received, Snapshot, OneAddress, AllValid, ReadsApart;
    if |msgs| == 0 || |msgs| > MAX_MSGS {
      return EOPNOTSUPP;
    }
    ghost var ms := Snapshot(msgs);
    var sameAddr, rxLen, dataLen := Measure(msgs);
    if !sameAddr {
      return EOPNOTSUPP;
    }
    if PREFIX + DESC * |msgs| + dataLen > MAX_PAYLOAD || rxLen > MAX_PAYLOAD {
      return EMSGSIZE;
    }
    var req := Pack(handle, bus, msgs, dataLen);
    NamesItsDevice(handle, bus, ms);
    var status, response := SendRequest(daemon, handle, req[..], rxLen);
    assert Snapshot(msgs) == ms;
    if status != 0 {
      return status;
    }
    if |response| != rxLen {
      return EPROTO;
    }
    Scatter(msgs, response);
    ret := |msgs|;
  }

  lemma NamesItsDevice(handle: u32, bus: u32, ms: seq<Msg>)
    requires AllValid(ms) && |ms| < U32 && |Written(ms)| < U32
    ensures |Encode(handle, bus, ms)| >= PREFIX && I2cDaemon.Named(Encode(handle, bus, ms)) == handle
  {
    EncodedPrefix(handle, bus, ms);
  }
}
