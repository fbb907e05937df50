/** The SPI transfer as values: the request the kernel packs, its parser in the daemon, the flash script. */
module SpiModel {
  import opened Words
  import opened Wire

  const MAX_XFERS := 256
  const PREFIX := 24
  const DESC := 19

  // The kernel's transfers.

  datatype Delay = Delay(value: u16, unit: byte)

  /** What the message inherits from its spi device. */
  datatype Spi = Spi(maxSpeedHz: u32, bitsPerWord: byte, mode: u32, chipSelect: u32)

  datatype Xfer = Xfer(
    len: u32, tx: Option<seq<byte>>, rx: bool, speedHz: u32, bitsPerWord: byte, csChange: bool,
    txNbits: byte, rxNbits: byte, delay: Delay, wordDelay: Delay)
  {
    predicate Valid() { tx.Some? ==> |tx.value| == len }
  }

  predicate AllValid(xs: seq<Xfer>) {
    forall i :: 0 <= i < |xs| ==> xs[i].Valid()
  }

  /** The data of a transfer: what it sends, or zeros when it only receives. */
  function Sent(x: Xfer): (s: seq<byte>)
    requires x.Valid()
    ensures |s| == x.len
  {
    if x.tx.Some? then x.tx.value else Zeros(x.len)
  }

  function LaneWidth(nbits: byte): (w: byte) {
    if nbits == 0 then 1 else if nbits in {1, 2, 4, 8} then nbits else 0
  }

  function DivUp(a: nat, b: nat): nat
    requires b > 0
  {
    (a + b - 1) / b
  }

  /** A delay in microseconds, rounded up and saturated to 32 bits. */
  function Usecs(d: Delay, speedHz: u32): u32 {
    if d.value == 0 then 0
    else if d.unit == 0 then d.value
    else if d.unit == 1 then Min(DivUp(d.value, 1000), 0xFFFF_FFFF)
    else if d.unit == 2 then
      if speedHz == 0 then 0 else Min(DivUp(Times(d.value, 1000000), speedHz), 0xFFFF_FFFF)
    else 0
  }

  function Times(a: nat, b: nat): nat { a * b }

  function Speed(spi: Spi, x: Xfer): u32 {
    if x.speedHz != 0 then x.speedHz else spi.maxSpeedHz
  }

  function Bits(spi: Spi, x: Xfer): (b: byte)
    ensures b > 0
  {
    if x.bitsPerWord != 0 then x.bitsPerWord else if spi.bitsPerWord != 0 then spi.bitsPerWord else 8
  }

  predicate LanesAccepted(x: Xfer) {
    LaneWidth(x.txNbits) != 0 && LaneWidth(x.rxNbits) != 0
  }

  function Flag(b: bool): byte { if b then 1 else 0 }

  /** The one-byte fields of a descriptor. */
  function Options(spi: Spi, x: Xfer): (s: seq<byte>)
    ensures |s| == 7
  {
    [Bits(spi, x), Flag(x.csChange), LaneWidth(x.txNbits), LaneWidth(x.rxNbits),
     Min(Usecs(x.wordDelay, Speed(spi, x)), 0xFF), Flag(x.tx.Some?), Flag(x.rx)]
  }

  function Descriptor(spi: Spi, x: Xfer): (s: seq<byte>)
    ensures |s| == DESC
  {
    LE32(x.len) + LE32(Speed(spi, x)) + LE16(Min(Usecs(x.delay, Speed(spi, x)), 0xFFFF)) + Options(spi, x)
      + Zeros(2)
  }

  function Descriptors(spi: Spi, xs: seq<Xfer>): (s: seq<byte>)
    ensures |s| == DESC * |xs|
  {
    if xs == [] then [] else Descriptors(spi, Init(xs)) + Descriptor(spi, Last(xs))
  }

  function TotalLen(xs: seq<Xfer>): nat {
    if xs == [] then 0 else TotalLen(Init(xs)) + Last(xs).len
  }

  function AllSent(xs: seq<Xfer>): (s: seq<byte>)
    requires AllValid(xs)
    ensures |s| == TotalLen(xs)
  {
    if xs == [] then [] else AllSent(Init(xs)) + Sent(Last(xs))
  }

  function Prefix(device: u32, bus: u32, mode: u32, num: u32, dataLen: u32, chipSelect: u32): (s: seq<byte>)
    ensures |s| == PREFIX
  {
    LE32(device) + LE32(bus) + LE32(mode) + LE32(num) + LE32(dataLen) + LE32(chipSelect)
  }

  /** The wire form of a message. */
  function Encode(device: u32, bus: u32, spi: Spi, xs: seq<Xfer>): (s: seq<byte>)
    requires AllValid(xs) && |xs| < U32 && TotalLen(xs) < U32
    ensures |s| == PREFIX + DESC * |xs| + TotalLen(xs)
  {
    Prefix(device, bus, spi.mode, |xs|, TotalLen(xs), spi.chipSelect) + Descriptors(spi, xs) + AllSent(xs)
  }

  // The daemon's parser.

  /** A transfer as the daemon hands it to a template or a controller. */
  datatype Request = Request(
    len: nat, speedHz: u32, delayUsecs: u16, bitsPerWord: nat, csChange: byte, txNbits: byte, rxNbits: byte,
    wordDelayUsecs: byte, hasTx: bool, hasRx: bool, tx: seq<byte>)

  /** What the daemon knows of the device: the chip select it models, and its default word size. */
  datatype Config = Config(chipSelect: u32, bitsPerWord: nat)

  datatype Fields = Fields(
    len: u32, speedHz: u32, delayUsecs: u16, bitsPerWord: byte, csChange: byte, txNbits: byte, rxNbits: byte,
    wordDelayUsecs: byte, hasTx: byte, hasRx: byte)

  function FieldsAt(p: seq<byte>, i: nat): Fields
    requires PREFIX + DESC * (i + 1) <= |p|
  {
    var o := PREFIX + DESC * i;
    Fields(U32At(p, o), U32At(p, o + 4), U16At(p, o + 8), p[o + 10], p[o + 11], p[o + 12], p[o + 13],
           p[o + 14], p[o + 15], p[o + 16])
  }

  function Or1(nbits: byte): byte { if nbits == 0 then 1 else nbits }

  function WordSize(c: Config, f: Fields): nat {
    if f.bitsPerWord != 0 then f.bitsPerWord else c.bitsPerWord
  }

  /** Why the daemon refuses a transfer, if it does. */
  function Refusal(c: Config, f: Fields): Option<int> {
    if f.len != 0 && !(1 <= WordSize(c, f) <= 32) then Some(EOPNOTSUPP)
    else if Or1(f.txNbits) !in {1, 2, 4, 8} || Or1(f.rxNbits) !in {1, 2, 4, 8} then Some(EOPNOTSUPP)
    else if f.csChange !in {0, 1} then Some(EOPNOTSUPP)
    else if f.hasTx !in {0, 1} || f.hasRx !in {0, 1} then Some(EPROTO)
    else None
  }

  function FirstRefusal(c: Config, p: seq<byte>, n: nat): Option<int>
    requires PREFIX + DESC * n <= |p|
  {
    if n == 0 then None
    else if FirstRefusal(c, p, n - 1).Some? then FirstRefusal(c, p, n - 1)
    else Refusal(c, FieldsAt(p, n - 1))
  }

  function Cursor(p: seq<byte>, i: nat): nat
    requires PREFIX + DESC * i <= |p|
  {
    if i == 0 then 0 else Cursor(p, i - 1) + FieldsAt(p, i - 1).len
  }

  function RequestOf(c: Config, f: Fields, chunk: seq<byte>): Request {
    Request(f.len, f.speedHz, f.delayUsecs, WordSize(c, f), f.csChange, Or1(f.txNbits), Or1(f.rxNbits),
            f.wordDelayUsecs, f.hasTx != 0, f.hasRx != 0, chunk)
  }

  function RequestAt(c: Config, p: seq<byte>, i: nat, tx: seq<byte>): Request
    requires PREFIX + DESC * (i + 1) <= |p|
  {
    RequestOf(c, FieldsAt(p, i), Slice(tx, Cursor(p, i), Cursor(p, i) + FieldsAt(p, i).len))
  }

  function Requests(c: Config, p: seq<byte>, n: nat, tx: seq<byte>): (r: seq<Request>)
    requires PREFIX + DESC * n <= |p|
    ensures |r| == n
    ensures forall i :: 0 <= i < n ==> r[i] == RequestAt(c, p, i, tx)
  {
    seq(n, i requires 0 <= i < n => RequestAt(c, p, i, tx))
  }

  /** Unpacking for the device the request names; config is None when there is no such device. */
  function Decode(p: seq<byte>, config: Option<Config>): Result<seq<Request>> {
    if |p| < PREFIX then Err(EPROTO)
    else
      var num, dataLen := U32At(p, 12), U32At(p, 16);
      if num == 0 || num > MAX_XFERS then Err(EOPNOTSUPP)
      else if |p| < PREFIX + DESC * num then Err(EPROTO)
      else if |p| - PREFIX - DESC * num != dataLen then Err(EPROTO)
      else if config.None? then Err(ENOENT)
      else if U32At(p, 20) != config.value.chipSelect then Err(EPROTO)
      else
        var refusal := FirstRefusal(config.value, p, num);
        if refusal.Some? then Err(refusal.value)
        else Ok(Requests(config.value, p, num, p[PREFIX + DESC * num..]))
  }

  // The request survives the wire.

  /** What the daemon must make of a transfer of the message. */
  function Seen(spi: Spi, x: Xfer): Request
    requires x.Valid()
  {
    Request(x.len, Speed(spi, x), Min(Usecs(x.delay, Speed(spi, x)), 0xFFFF), Bits(spi, x), Flag(x.csChange),
            LaneWidth(x.txNbits), LaneWidth(x.rxNbits), Min(Usecs(x.wordDelay, Speed(spi, x)), 0xFF),
            x.tx.Some?, x.rx, Sent(x))
  }

  function AllSeen(spi: Spi, xs: seq<Xfer>): (r: seq<Request>)
    requires AllValid(xs)
    ensures |r| == |xs|
    ensures forall i :: 0 <= i < |xs| ==> r[i] == Seen(spi, xs[i])
  {
    seq(|xs|, i requires 0 <= i < |xs| => Seen(spi, xs[i]))
  }

  function FieldsOf(spi: Spi, x: Xfer): Fields {
    Fields(x.len, Speed(spi, x), Min(Usecs(x.delay, Speed(spi, x)), 0xFFFF), Bits(spi, x), Flag(x.csChange),
           LaneWidth(x.txNbits), LaneWidth(x.rxNbits), Min(Usecs(x.wordDelay, Speed(spi, x)), 0xFF),
           Flag(x.tx.Some?), Flag(x.rx))
  }

  lemma {:induction false} SentPiece(xs: seq<Xfer>, i: nat)
    requires AllValid(xs) && i < |xs|
    ensures TotalLen(xs[..i]) + xs[i].len <= TotalLen(xs)
    ensures AllSent(xs)[TotalLen(xs[..i])..TotalLen(xs[..i]) + xs[i].len] == Sent(xs[i])
    decreases |xs|
  {
    if i == |xs| - 1 {
      assert xs[..i] == Init(xs);
    } else {
      SentPiece(Init(xs), i);
      assert Init(xs)[..i] == xs[..i];
    }
  }

  lemma {:induction false} DescriptorPiece(spi: Spi, xs: seq<Xfer>, i: nat)
    requires i < |xs|
    ensures Descriptors(spi, xs)[DESC * i..DESC * (i + 1)] == Descriptor(spi, xs[i])
    decreases |xs|
  {
    hide Descriptor;
    if i < |xs| - 1 {
      DescriptorPiece(spi, Init(xs), i);
      var d := Descriptors(spi, Init(xs));
      assert Descriptors(spi, xs)[DESC * i..DESC * (i + 1)] == d[DESC * i..DESC * (i + 1)];
    }
  }

  lemma DescriptorSplits(spi: Spi, x: Xfer)
    ensures
      var d := Descriptor(spi, x);
      && d[0..4] == LE32(x.len) && d[4..8] == LE32(Speed(spi, x))
      && d[8..10] == LE16(Min(Usecs(x.delay, Speed(spi, x)), 0xFFFF))
      && d[10..17] == Options(spi, x)
  {
    hide LE16, LE32, Options, Usecs;
  }

  lemma {:induction false} DescriptorFields(p: seq<byte>, i: nat, spi: Spi, x: Xfer)
    requires PREFIX + DESC * (i + 1) <= |p|
    requires p[PREFIX + DESC * i..PREFIX + DESC * (i + 1)] == Descriptor(spi, x)
    ensures FieldsAt(p, i) == FieldsOf(spi, x)
  {
    hide LE16, LE32, U16At, U32At, Usecs, Descriptor;
    var o, d := PREFIX + DESC * i, Descriptor(spi, x);
    var q := p[o..o + DESC];
    assert q == d;
    DescriptorSplits(spi, x);
    SliceOfSlice(p, o, DESC, 0, 4);
    SliceOfSlice(p, o, DESC, 4, 8);
    SliceOfSlice(p, o, DESC, 8, 10);
    SliceOfSlice(p, o, DESC, 10, 17);
    ReadsBack32(p, o, x.len);
    ReadsBack32(p, o + 4, Speed(spi, x));
    ReadsBack16(p, o + 8, Min(Usecs(x.delay, Speed(spi, x)), 0xFFFF));
    var t := Options(spi, x);
    forall k | 0 <= k < 7
      ensures p[o + 10 + k] == t[k]
    {
      assert p[o + 10 + k] == p[o + 10..o + 17][k];
    }
    assert p[o + 10] == t[0] && p[o + 11] == t[1] && p[o + 12] == t[2] && p[o + 13] == t[3];
    assert p[o + 14] == t[4] && p[o + 15] == t[5] && p[o + 16] == t[6];
  }

  lemma {:induction false} EncodedFields(device: u32, bus: u32, spi: Spi, xs: seq<Xfer>, i: nat)
    requires AllValid(xs) && |xs| < U32 && TotalLen(xs) < U32 && i < |xs|
    ensures FieldsAt(Encode(device, bus, spi, xs), i) == FieldsOf(spi, xs[i])
  {
    hide FieldsAt, FieldsOf, Descriptors, Descriptor, AllSent, TotalLen, Prefix;
    var p, ds := Encode(device, bus, spi, xs), Descriptors(spi, xs);
    DescriptorPiece(spi, xs, i);
    var a, b := DESC * i, DESC * (i + 1);
    assert p[PREFIX + a..PREFIX + b] == ds[a..b];
    DescriptorFields(p, i, spi, xs[i]);
  }

  lemma {:induction false} EncodedCursor(device: u32, bus: u32, spi: Spi, xs: seq<Xfer>, i: nat)
    requires AllValid(xs) && |xs| < U32 && TotalLen(xs) < U32 && i <= |xs|
    ensures Cursor(Encode(device, bus, spi, xs), i) == TotalLen(xs[..i])
  {
    hide FieldsAt, Encode, Descriptors, AllSent;
    if i > 0 {
      EncodedCursor(device, bus, spi, xs, i - 1);
      EncodedFields(device, bus, spi, xs, i - 1);
      InitOfPrefix(xs, i - 1);
    }
  }

  lemma PrefixSplits(device: u32, bus: u32, mode: u32, num: u32, dataLen: u32, chipSelect: u32)
    ensures
      var h := Prefix(device, bus, mode, num, dataLen, chipSelect);
      && h[0..4] == LE32(device) && h[12..16] == LE32(num) && h[16..20] == LE32(dataLen)
      && h[20..24] == LE32(chipSelect)
  {
    hide LE32;
  }

  lemma EncodedPrefix(device: u32, bus: u32, spi: Spi, xs: seq<Xfer>)
    requires AllValid(xs) && |xs| < U32 && TotalLen(xs) < U32
    ensures
      var p := Encode(device, bus, spi, xs);
      && U32At(p, 0) == device && U32At(p, 12) == |xs| && U32At(p, 16) == TotalLen(xs)
      && U32At(p, 20) == spi.chipSelect
      && p[PREFIX + DESC * |xs|..] == AllSent(xs)
  {
    hide Descriptors, AllSent, LE32, U32At, TotalLen, Prefix;
    var p := Encode(device, bus, spi, xs);
    PrefixSplits(device, bus, spi.mode, |xs|, TotalLen(xs), spi.chipSelect);
    ThreeParts(Prefix(device, bus, spi.mode, |xs|, TotalLen(xs), spi.chipSelect), Descriptors(spi, xs), AllSent(xs));
    SliceOfSlice(p, 0, PREFIX, 0, 4);
    SliceOfSlice(p, 0, PREFIX, 12, 16);
    SliceOfSlice(p, 0, PREFIX, 16, 20);
    SliceOfSlice(p, 0, PREFIX, 20, 24);
    ReadsBack32(p, 0, device);
    ReadsBack32(p, 12, |xs|);
    ReadsBack32(p, 16, TotalLen(xs));
    ReadsBack32(p, 20, spi.chipSelect);
  }

  lemma EncodedRequest(device: u32, bus: u32, spi: Spi, xs: seq<Xfer>, c: Config, i: nat)
    requires AllValid(xs) && |xs| < U32 && TotalLen(xs) < U32 && i < |xs| && LanesAccepted(xs[i])
    ensures RequestAt(c, Encode(device, bus, spi, xs), i, AllSent(xs)) == Seen(spi, xs[i])
  {
    hide FieldsAt, Cursor, Encode, AllSent, TotalLen, Usecs;
    EncodedFields(device, bus, spi, xs, i);
    EncodedCursor(device, bus, spi, xs, i);
    SentPiece(xs, i);
  }

  /** A word size the daemon serves; empty transfers are not checked. */
  predicate WordsAccepted(spi: Spi, x: Xfer) {
    x.len == 0 || Bits(spi, x) <= 32
  }

  lemma {:induction false} NoRefusal(device: u32, bus: u32, spi: Spi, xs: seq<Xfer>, c: Config, n: nat)
    requires AllValid(xs) && |xs| < U32 && TotalLen(xs) < U32 && n <= |xs|
    requires forall i :: 0 <= i < n ==> LanesAccepted(xs[i])
    ensures
      FirstRefusal(c, Encode(device, bus, spi, xs), n)
        == if forall i :: 0 <= i < n ==> WordsAccepted(spi, xs[i]) then None else Some(EOPNOTSUPP)
  {
    hide FieldsAt, Encode, AllSent, TotalLen, Usecs;
    if n > 0 {
      NoRefusal(device, bus, spi, xs, c, n - 1);
      EncodedFields(device, bus, spi, xs, n - 1);
    }
  }

  /**
    * What the kernel packs, the daemon unpacks to the same transfers, with zeros where there is nothing to
    * send, unless some non-empty transfer has a word size above 32 bits.
    */
  lemma {:induction false} DecodeEncode(device: u32, bus: u32, spi: Spi, xs: seq<Xfer>, c: Config)
    requires AllValid(xs) && 1 <= |xs| <= MAX_XFERS && TotalLen(xs) < U32
    requires forall i :: 0 <= i < |xs| ==> LanesAccepted(xs[i])
    requires c.chipSelect == spi.chipSelect
    ensures
      Decode(Encode(device, bus, spi, xs), Some(c))
        == if forall i :: 0 <= i < |xs| ==> WordsAccepted(spi, xs[i]) then Ok(AllSeen(spi, xs))
           else Err(EOPNOTSUPP)
  {
    hide Encode, AllSent, TotalLen, Seen, RequestAt, FirstRefusal, U32At, WordsAccepted, LanesAccepted;
    var p := Encode(device, bus, spi, xs);
    EncodedPrefix(device, bus, spi, xs);
    NoRefusal(device, bus, spi, xs, c, |xs|);
    var rs := Requests(c, p, |xs|, AllSent(xs));
    forall i | 0 <= i < |xs|
      ensures rs[i] == AllSeen(spi, xs)[i]
    {
      EncodedRequest(device, bus, spi, xs, c, i);
    }
    assert rs == AllSeen(spi, xs);
  }
}
