/** The SPI transfer as the kernel and the daemon execute it, refining SpiTransferModel. */
module SpiTransfer {
  import opened Words
  import opened Wire
  import opened Faults
  import opened SpiModel
  import SpiScript
  import opened SpiTransferModel

  // Daemon side.

  class SpiDevice {
    const chipSelect: u32
    const bitsPerWord: nat
    const faults: FaultPlan
    const template: SpiScript.SpiScriptTemplate

    constructor (chipSelect: u32, bitsPerWord: nat, faults: FaultPlan, template: SpiScript.SpiScriptTemplate)
      ensures this.chipSelect == chipSelect && this.bitsPerWord == bitsPerWord
      ensures this.faults == faults && this.template == template
    {
      this.chipSelect := chipSelect;
      this.bitsPerWord := bitsPerWord;
      this.faults := faults;
      this.template := template;
    }

    function DeviceConfig(): Config {
      Config(chipSelect, bitsPerWord)
    }

    ghost function View(): Dev
      reads faults, template
    {
      Dev(DeviceConfig(), faults.fault, template.View())
    }

    /** Unpacks and validates the transfers; the first one that is refused decides. */
    method UnpackTransfers(p: seq<byte>, num: nat, tx: seq<byte>) returns (r: Result<seq<Request>>)
      requires PREFIX + DESC * num <= |p|
      ensures
        var refusal := FirstRefusal(DeviceConfig(), p, num);
        r == if refusal.Some? then Err(refusal.value) else Ok(Requests(DeviceConfig(), p, num, tx))
    {
      hide FieldsAt, RequestOf, Refusal;
      var c := DeviceConfig();
      var transfers: seq<Request> := [];
      var cursor: nat := 0;
      var index := 0;
      while index < num
        invariant index <= num && cursor == Cursor(p, index)
        invariant FirstRefusal(c, p, index) == None
        invariant transfers == Requests(c, p, index, tx)
      {
        var f := FieldsAt(p, index);
        var refusal := Refusal(c, f);
        if refusal.Some? {
          FirstRefusalStays(c, p, index + 1, num);
          return Err(refusal.value);
        }
        var length: nat := f.len;
        var chunk := Slice(tx, cursor, cursor + length);
        cursor := cursor + length;
        transfers := transfers + [RequestOf(c, f, chunk)];
        index := index + 1;
      }
      return Ok(transfers);
    }
  }

  lemma {:induction false} FirstRefusalStays(c: Config, p: seq<byte>, n: nat, m: nat)
    requires n <= m && PREFIX + DESC * m <= |p| && FirstRefusal(c, p, n).Some?
    ensures FirstRefusal(c, p, m) == FirstRefusal(c, p, n)
  {
    if n < m {
      FirstRefusalStays(c, p, n, m - 1);
    }
  }

  class SpiDaemon {
    var devices: map<u32, SpiDevice>

    constructor (devices: map<u32, SpiDevice>)
      ensures this.devices == devices
    {
      this.devices := devices;
    }

    static function Named(payload: seq<byte>): u32 {
      if |payload| < PREFIX then 0 else U32At(payload, 0)
    }

    ghost function Touched(handle: u32): set<object>
      reads this`devices
    {
      if handle in devices then {devices[handle].faults, devices[handle].template} else {}
    }

    ghost function View(handle: u32): Option<Dev>
      reads this`devices, Touched(handle)
    {
      if handle in devices then Some(devices[handle].View()) else None
    }

    method HandleSpiRequest(payload: seq<byte>) returns (status: int, data: seq<byte>)
      modifies Touched(Named(payload))
      ensures Answer(status, data, View(Named(payload))) == Answered(payload, old(View(Named(payload))))
    {
      hide U32At, FirstRefusal, Requests, SpiScript.HandleAll, Consumed, Shortened, PreStatus;
      if |payload| < PREFIX {
        return EPROTO, [];
      }
      var num, dataLen := U32At(payload, 12), U32At(payload, 16);
      if num == 0 || num > MAX_XFERS {
        return EOPNOTSUPP, [];
      }
      if |payload| < PREFIX + DESC * num {
        return EPROTO, [];
      }
      var tx := payload[PREFIX + DESC * num..];
      if |tx| != dataLen {
        return EPROTO, [];
      }
      var handle := U32At(payload, 0);
      if handle !in devices {
        return ENOENT, [];
      }
      var device := devices[handle];
      if U32At(payload, 20) != device.chipSelect {
        return EPROTO, [];
      }
      var r := device.UnpackTransfers(payload, num, tx);
      if r.Err? {
        return r.status, [];
      }
      ServeableFault(device.faults.fault);
      var preFault := device.faults.ApplyPre();
      if preFault.Some? {
        return preFault.value, [];
      }
      data := device.template.HandleSpiMessage(r.value);
      data := device.faults.ApplyPost(data);
      status := 0;
    }
  }

  lemma ServeableFault(f: Fault)
    ensures PreStatus(f).None? <==> f.NoFault? || f.ShortReply?
  {
  }

  // Kernel side: transfers with caller-owned buffers.

  class SpiXfer {
    const len: u32
    const txBuf: array?<byte>
    const rxBuf: array?<byte>
    const speedHz: u32
    const bitsPerWord: byte
    const csChange: bool
    const txNbits: byte
    const rxNbits: byte
    const delay: Delay
    const wordDelay: Delay

    constructor (len: u32, txBuf: array?<byte>, rxBuf: array?<byte>, speedHz: u32, bitsPerWord: byte,
                 csChange: bool, txNbits: byte, rxNbits: byte, delay: Delay, wordDelay: Delay)
      ensures this.len == len && this.txBuf == txBuf && this.rxBuf == rxBuf
      ensures this.speedHz == speedHz && this.bitsPerWord == bitsPerWord && this.csChange == csChange
      ensures this.txNbits == txNbits && this.rxNbits == rxNbits
      ensures this.delay == delay && this.wordDelay == wordDelay
    {
      this.len := len;
      this.txBuf := txBuf;
      this.rxBuf := rxBuf;
      this.speedHz := speedHz;
      this.bitsPerWord := bitsPerWord;
      this.csChange := csChange;
      this.txNbits := txNbits;
      this.rxNbits := rxNbits;
      this.delay := delay;
      this.wordDelay := wordDelay;
    }

    predicate Sized() {
      (txBuf != null ==> txBuf.Length == len) && (rxBuf != null ==> rxBuf.Length == len)
    }

    ghost function Value(): (x: Xfer)
      reads txBuf
      ensures Sized() ==> x.Valid()
    {
      Xfer(len, if txBuf != null then Some(txBuf[..]) else None, rxBuf != null, speedHz, bitsPerWord,
           csChange, txNbits, rxNbits, delay, wordDelay)
    }
  }

  ghost predicate AllSized(xs: seq<SpiXfer>) {
    forall x :: x in xs ==> x.Sized()
  }

  ghost function TxBuffers(xs: seq<SpiXfer>): set<object> {
    set x | x in xs && x.txBuf != null :: x.txBuf
  }

  ghost function RxBuffers(xs: seq<SpiXfer>): set<object> {
    set x | x in xs && x.rxBuf != null :: x.rxBuf
  }

  ghost function Snapshot(xs: seq<SpiXfer>): (vs: seq<Xfer>)
    reads TxBuffers(xs)
    ensures |vs| == |xs|
    ensures forall i :: 0 <= i < |xs| ==> vs[i] == xs[i].Value()
    ensures AllSized(xs) ==> AllValid(vs)
  {
    if xs == [] then [] else Snapshot(Init(xs)) + [Last(xs).Value()]
  }

  lemma NothingYet(vs: seq<Xfer>)
    requires AllValid(vs)
    ensures TotalLen(vs[..0]) == 0 && AllSent(vs[..0]) == []
  {
  }

  /** The first pass over the list: counts the transfers, up to the limit, and their bytes. */
  method Measure(xs: seq<SpiXfer>) returns (tooMany: bool, totalLen: nat)
    ensures tooMany <==> |xs| > MAX_XFERS
    ensures !tooMany ==> totalLen == TotalLen(Snapshot(xs))
  {
    ghost var vs := Snapshot(xs);
    totalLen := 0;
    var num := 0;
    while num < |xs|
      invariant num <= |xs| && num <= MAX_XFERS
      invariant totalLen == TotalLen(vs[..num])
    {
      if num + 1 > MAX_XFERS {
        return true, totalLen;
      }
      InitOfPrefix(vs, num);
      totalLen := totalLen + xs[num].len;
      num := num + 1;
    }
    assert vs[..num] == vs;
    assert vs == Snapshot(xs);
    tooMany := false;
  }

  /** The fields of a descriptor, without its two reserved bytes. */
  function PackedFields(spi: Spi, x: Xfer): (s: seq<byte>)
    ensures |s| == 17
    ensures s + Zeros(2) == Descriptor(spi, x)
  {
    LE32(x.len) + LE32(Speed(spi, x)) + LE16(Min(Usecs(x.delay, Speed(spi, x)), 0xFFFF)) + Options(spi, x)
  }

  method WriteDescriptor(req: array<byte>, o: nat, spi: Spi, x: SpiXfer)
    requires o + DESC <= req.Length && req != x.txBuf
    modifies req
    ensures CopiedTo(old(req[..]), req[..], o, PackedFields(spi, old(x.Value())))
  {
    hide LE32, LE16, Usecs, CopiedTo;
    var speedHz := if x.speedHz != 0 then x.speedHz else spi.maxSpeedHz;
    var bits := if x.bitsPerWord != 0 then x.bitsPerWord else if spi.bitsPerWord != 0 then spi.bitsPerWord else 8;
    var options := [bits, Flag(x.csChange), LaneWidth(x.txNbits), LaneWidth(x.rxNbits),
                    Min(Usecs(x.wordDelay, speedHz), 0xFF), Flag(x.txBuf != null), Flag(x.rxBuf != null)];
    assert options == Options(spi, x.Value());
    var delay := LE16(Min(Usecs(x.delay, speedHz), 0xFFFF));
    ghost var s0 := req[..];
    CopyInto(req, o, LE32(x.len));
    ghost var s1 := req[..];
    CopyInto(req, o + 4, LE32(speedHz));
    ghost var s2 := req[..];
    CopiesJoin(s0, s1, s2, o, LE32(x.len), LE32(speedHz));
    CopyInto(req, o + 8, delay);
    ghost var s3 := req[..];
    CopiesJoin(s0, s2, s3, o, LE32(x.len) + LE32(speedHz), delay);
    CopyInto(req, o + 10, options);
    CopiesJoin(s0, s3, req[..], o, LE32(x.len) + LE32(speedHz) + delay, options);
  }

  method WritePrefix(req: array<byte>, device: u32, bus: u32, spi: Spi, num: u32, dataLen: u32)
    requires PREFIX <= req.Length
    modifies req
    ensures CopiedTo(old(req[..]), req[..], 0, Prefix(device, bus, spi.mode, num, dataLen, spi.chipSelect))
  {
    hide LE32;
    CopyInto(req, 0, LE32(device));
    CopyInto(req, 4, LE32(bus));
    CopyInto(req, 8, LE32(spi.mode));
    CopyInto(req, 12, LE32(num));
    CopyInto(req, 16, LE32(dataLen));
    CopyInto(req, 20, LE32(spi.chipSelect));
  }

  lemma TransferPacked(req: seq<byte>, req': seq<byte>, req'': seq<byte>, head: seq<byte>, spi: Spi,
                       xs: seq<Xfer>, i: nat)
    requires AllValid(xs) && i < |xs|
    requires Filled(req, head, Descriptors(spi, xs[..i]), DESC * |xs|, AllSent(xs[..i]))
    requires CopiedTo(req, req', |head| + DESC * i, PackedFields(spi, xs[i]))
    requires CopiedTo(req', req'', |head| + DESC * |xs| + TotalLen(xs[..i]), Sent(xs[i]))
    ensures Filled(req'', head, Descriptors(spi, xs[..i + 1]), DESC * |xs|, AllSent(xs[..i + 1]))
  {
    hide Filled, CopiedTo, PackedFields, Descriptor, Sent;
    InitOfPrefix(xs, i);
    var d := PackedFields(spi, xs[i]);
    assert Descriptors(spi, xs[..i + 1]) == Descriptors(spi, xs[..i]) + (d + Zeros(2));
    PutDescriptor(req, req', head, Descriptors(spi, xs[..i]), DESC * |xs|, AllSent(xs[..i]), d, 2);
    PutData(req', req'', head, Descriptors(spi, xs[..i + 1]), DESC * |xs|, AllSent(xs[..i]), Sent(xs[i]));
  }

  /** Packs one transfer behind those already packed. */
  method PackTransfer(req: array<byte>, txData: nat, offset: nat, spi: Spi, x: SpiXfer,
                      ghost head: seq<byte>, ghost vs: seq<Xfer>, index: nat)
    requires AllValid(vs) && index < |vs| && req != x.txBuf && x.Sized() && vs[index] == x.Value()
    requires |head| == PREFIX && txData == PREFIX + DESC * |vs| && offset == TotalLen(vs[..index])
    requires req.Length == txData + TotalLen(vs)
    requires Filled(req[..], head, Descriptors(spi, vs[..index]), DESC * |vs|, AllSent(vs[..index]))
    modifies req
    ensures Filled(req[..], head, Descriptors(spi, vs[..index + 1]), DESC * |vs|, AllSent(vs[..index + 1]))
  {
    hide AllSent, TotalLen, Filled, CopiedTo, PackedFields, Descriptors;
    ghost var before := req[..];
    TotalLenGrows(vs, index);
    WriteDescriptor(req, PREFIX + DESC * index, spi, x);
    ghost var between := req[..];
    var data := if x.txBuf != null then x.txBuf[..] else Zeros(x.len);
    assert data == Sent(vs[index]);
    CopyInto(req, txData + offset, data);
    TransferPacked(before, between, req[..], head, spi, vs, index);
  }

  /** Packs the message, or gives up at the first transfer whose lane widths are not supported. */
  method Pack(handle: u32, bus: u32, spi: Spi, xs: seq<SpiXfer>, totalLen: u32) returns (ok: bool, req: array<byte>)
    requires AllSized(xs) && |xs| < U32 && totalLen == TotalLen(Snapshot(xs))
    ensures fresh(req)
    ensures ok <==> forall i :: 0 <= i < |xs| ==> LanesAccepted(old(Snapshot(xs))[i])
    ensures ok ==> req[..] == Encode(handle, bus, spi, old(Snapshot(xs)))
  {
    hide AllSent, TotalLen, LE32, LE16, Filled, CopiedTo, Prefix, PackedFields, Descriptor, LaneWidth;
    ghost var vs := Snapshot(xs);
    var n := |xs|;
    var txData := PREFIX + DESC * n;
    req := new byte[txData + totalLen](_ => 0);
    ghost var zeroed := req[..];
    WritePrefix(req, handle, bus, spi, n, totalLen);
    ghost var head := Prefix(handle, bus, spi.mode, n, totalLen, spi.chipSelect);
    StartFilling(zeroed, req[..], head, DESC * n);
    NothingYet(vs);
    var index, offset: nat := 0, 0;
    while index < n
      invariant index <= n && fresh(req) && req.Length == txData + totalLen
      invariant Filled(req[..], head, Descriptors(spi, vs[..index]), DESC * n, AllSent(vs[..index]))
      invariant offset == TotalLen(vs[..index])
      invariant forall i :: 0 <= i < index ==> LanesAccepted(vs[i])
    {
      var x := xs[index];
      if LaneWidth(x.txNbits) == 0 || LaneWidth(x.rxNbits) == 0 {
        assert !LanesAccepted(vs[index]);
        return false, req;
      }
      TotalLenGrows(vs, index);
      PackTransfer(req, txData, offset, spi, x, head, vs, index);
      offset := offset + x.len;
      index := index + 1;
    }
    assert vs[..index] == vs;
    FilledCompletely(req[..], head, Descriptors(spi, vs), AllSent(vs));
    ok := true;
  }

  ghost predicate RxApart(xs: seq<SpiXfer>) {
    forall i, j :: 0 <= i < j < |xs| && xs[i].rxBuf != null && xs[j].rxBuf != null ==> xs[i].rxBuf != xs[j].rxBuf
  }

  /** The receive buffer of the i-th transfer, if it has one, holds its part of the reply. */
  ghost predicate Got(x: SpiXfer, xs: seq<Xfer>, reply: seq<byte>, i: nat)
    reads x.rxBuf
  {
    x.rxBuf != null ==>
      && i < |xs| && TotalLen(xs[..i]) <= TotalLen(xs[..i + 1]) <= |reply|
      && x.rxBuf[..] == ReplyPart(xs, reply, i)
  }

  lemma HoldsPart(x: SpiXfer, xs: seq<Xfer>, reply: seq<byte>, i: nat)
    requires x.rxBuf != null && i < |xs| && TotalLen(xs[..i]) <= TotalLen(xs[..i + 1]) <= |reply|
    requires x.rxBuf[..] == reply[TotalLen(xs[..i])..TotalLen(xs[..i + 1])]
    ensures Got(x, xs, reply, i)
  {
  }

  method Scatter(xs: seq<SpiXfer>, reply: seq<byte>)
    requires AllSized(xs) && RxApart(xs) && |reply| == TotalLen(Snapshot(xs))
    modifies RxBuffers(xs)
    ensures forall i :: 0 <= i < |xs| ==> Got(xs[i], old(Snapshot(xs)), reply, i)
  {
    hide TotalLen, Got;
    ghost var vs := Snapshot(xs);
    NothingYet(vs);
    var i, offset: nat := 0, 0;
    while i < |xs|
      invariant i <= |xs| && offset == TotalLen(vs[..i])
      invariant forall j :: 0 <= j < i ==> Got(xs[j], vs, reply, j)
    {
      TotalLenGrows(vs, i);
      var x := xs[i];
      if x.rxBuf != null {
        var part := reply[offset..offset + x.len];
        CopyInto(x.rxBuf, 0, part);
        assert x.rxBuf[..] == part;
        HoldsPart(x, vs, reply, i);
      } else {
        NothingToHold(x, vs, reply, i);
      }
      offset := offset + x.len;
      i := i + 1;
    }
  }

  lemma NothingToHold(x: SpiXfer, xs: seq<Xfer>, reply: seq<byte>, i: nat)
    requires x.rxBuf == null
    ensures Got(x, xs, reply, i)
  {
  }

  ghost predicate Apart(daemon: SpiDaemon, handle: u32, xs: seq<SpiXfer>)
    reads daemon`devices
  {
    TxBuffers(xs) + RxBuffers(xs) !! daemon.Touched(handle)
  }

  /** Sends a packed request to the daemon and waits for the reply command. */
  method SendRequest(daemon: SpiDaemon, handle: u32, payload: seq<byte>, capacity: nat)
    returns (status: int, response: seq<byte>)
    requires SpiDaemon.Named(payload) == handle
    modifies daemon.Touched(handle)
    ensures status <= 0
    ensures
      var a := Answered(payload, old(daemon.View(handle)));
      (status, response) == Received(capacity, a.status, a.data) && daemon.View(handle) == a.dev
  {
    hide Answered;
    StatusIsNeverPositive(payload, daemon.View(handle));
    var data: seq<byte>;
    status, data := daemon.HandleSpiRequest(payload);
    response := [];
    if REPLY_PREFIX + |data| > MAX_PAYLOAD {
      status := ETIMEDOUT;
    } else if status == 0 {
      var copyLen := if capacity < |data| then capacity else |data|;
      response := data[..copyLen];
    }
  }

  /** Packs and sends; ok is false when a lane width is not supported, and then nothing is sent. */
  method Exchange(daemon: SpiDaemon, handle: u32, bus: u32, spi: Spi, xs: seq<SpiXfer>, totalLen: u32)
    returns (ok: bool, status: int, response: seq<byte>)
    requires AllSized(xs) && |xs| < U32 && totalLen == TotalLen(Snapshot(xs))
    modifies daemon.Touched(handle)
    ensures ok <==> forall i :: 0 <= i < |xs| ==> LanesAccepted(old(Snapshot(xs))[i])
    ensures !ok ==> daemon.View(handle) == old(daemon.View(handle))
    ensures ok ==>
      var a := Answered(Encode(handle, bus, spi, old(Snapshot(xs))), old(daemon.View(handle)));
      (status, response) == Received(totalLen, a.status, a.data) && daemon.View(handle) == a.dev && status <= 0
  {
    hide TotalLen, AllSent, Answered, Encode, Received, Snapshot, AllValid, LanesAccepted;
    ghost var vs := Snapshot(xs);
    var req;
    ok, req := Pack(handle, bus, spi, xs, totalLen);
    status, response := 0, [];
    if ok {
      NamesItsDevice(handle, bus, spi, vs);
      status, response := SendRequest(daemon, handle, req[..], totalLen);
    }
  }

  /** A whole message: pack, let the daemon answer, take the reply, scatter. */
  method SpiExecMessage(daemon: SpiDaemon, handle: u32, bus: u32, spi: Spi, xs: seq<SpiXfer>) returns (ret: int)
    requires AllSized(xs) && RxApart(xs) && Apart(daemon, handle, xs)
    modifies RxBuffers(xs), daemon.Touched(handle)
    ensures
      var o := old(Transfer(handle, bus, spi, Snapshot(xs), daemon.View(handle)));
      && ret == o.ret && daemon.View(handle) == o.dev
      && (ret >= 0 ==> forall i :: 0 <= i < |xs| ==> Got(xs[i], old(Snapshot(xs)), o.reply, i))
    ensures ret < 0 ==> forall i :: 0 <= i < |xs| && xs[i].rxBuf != null ==> xs[i].rxBuf[..] == old(xs[i].rxBuf[..])
  {
    hide TotalLen, AllSent, Got, Answered, Encode, Received, Snapshot, AllValid, LanesAccepted, RxApart;
    ghost var vs := Snapshot(xs);
    var tooMany, totalLen := Measure(xs);
    if tooMany {
      return EOPNOTSUPP;
    }
    if PREFIX + DESC * |xs| + totalLen > MAX_PAYLOAD {
      return EMSGSIZE;
    }
    var ok, status, response := Exchange(daemon, handle, bus, spi, xs, totalLen);
    if !ok {
      return EOPNOTSUPP;
    }
    if status != 0 {
      return status;
    }
    if |response| != totalLen {
      return EPROTO;
    }
    assert Snapshot(xs) == vs;
    Scatter(xs, response);
    ret := totalLen;
  }

  lemma NamesItsDevice(handle: u32, bus: u32, spi: Spi, xs: seq<Xfer>)
    requires AllValid(xs) && |xs| < U32 && TotalLen(xs) < U32
    ensures |Encode(handle, bus, spi, xs)| >= PREFIX && SpiDaemon.Named(Encode(handle, bus, spi, xs)) == handle
  {
    EncodedPrefix(handle, bus, spi, xs);
  }
}
