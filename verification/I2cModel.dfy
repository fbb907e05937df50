/** The I2C transfer as values: the request the kernel packs, its parser in the daemon, the register bank. */
module I2cModel {
  import opened Words
  import opened Wire

  const MAX_MSGS := 256
  const PREFIX := 16
  const DESC := 8

  // The kernel's messages and the request it packs.

  datatype Msg = Msg(addr: u16, flags: u16, buf: seq<byte>) {
    predicate Reads() { flags % 2 == 1 }
    predicate Valid() { |buf| < U16 }
  }

  predicate AllValid(ms: seq<Msg>) {
    forall i :: 0 <= i < |ms| ==> ms[i].Valid()
  }

  function RxLen(ms: seq<Msg>): nat {
    if ms == [] then 0 else RxLen(Init(ms)) + (if Last(ms).Reads() then |Last(ms).buf| else 0)
  }

  /** The bytes of the write messages, one after the other. */
  function Written(ms: seq<Msg>): seq<byte> {
    if ms == [] then [] else Written(Init(ms)) + (if Last(ms).Reads() then [] else Last(ms).buf)
  }

  function Descriptor(m: Msg): (s: seq<byte>)
    requires m.Valid()
    ensures |s| == DESC
  {
    LE16(m.addr) + LE16(m.flags) + LE16(|m.buf|) + LE16(0)
  }

  function Descriptors(ms: seq<Msg>): (s: seq<byte>)
    requires AllValid(ms)
    ensures |s| == DESC * |ms|
  {
    if ms == [] then [] else Descriptors(Init(ms)) + Descriptor(Last(ms))
  }

  function Prefix(device: u32, bus: u32, num: u32, dataLen: u32): (s: seq<byte>)
    ensures |s| == PREFIX
  {
    LE32(device) + LE32(bus) + LE32(num) + LE32(dataLen)
  }

  /** The wire form of a transfer request. */
  function Encode(device: u32, bus: u32, ms: seq<Msg>): (s: seq<byte>)
    requires AllValid(ms) && |ms| < U32 && |Written(ms)| < U32
    ensures |s| == PREFIX + DESC * |ms| + |Written(ms)|
  {
    Prefix(device, bus, |ms|, |Written(ms)|) + Descriptors(ms) + Written(ms)
  }

  // The daemon's parser.

  /** A message as the daemon holds it: a read has a length and no data. */
  datatype Request = Request(addr: u16, flags: u16, len: u16, data: seq<byte>) {
    predicate Reads() { flags % 2 == 1 }
  }

  datatype Parsed = Parsed(device: u32, messages: seq<Request>)

  function FieldsAt(p: seq<byte>, i: nat): (u16, u16, u16)
    requires PREFIX + DESC * (i + 1) <= |p|
  {
    var o := PREFIX + DESC * i;
    (U16At(p, o), U16At(p, o + 2), U16At(p, o + 4))
  }

  /** Where the data of the i-th message starts. */
  function Cursor(p: seq<byte>, i: nat): nat
    requires PREFIX + DESC * i <= |p|
  {
    if i == 0 then 0
    else
      var f := FieldsAt(p, i - 1);
      Cursor(p, i - 1) + (if f.1 % 2 == 1 then 0 else f.2)
  }

  function RequestAt(p: seq<byte>, i: nat, tx: seq<byte>): Request
    requires PREFIX + DESC * (i + 1) <= |p|
  {
    var f := FieldsAt(p, i);
    Request(f.0, f.1, f.2, if f.1 % 2 == 1 then [] else Slice(tx, Cursor(p, i), Cursor(p, i) + f.2))
  }

  function Requests(p: seq<byte>, n: nat, tx: seq<byte>): (r: seq<Request>)
    requires PREFIX + DESC * n <= |p|
    ensures |r| == n
    ensures forall i :: 0 <= i < n ==> r[i] == RequestAt(p, i, tx)
  {
    seq(n, i requires 0 <= i < n => RequestAt(p, i, tx))
  }

  function Decode(p: seq<byte>): Result<Parsed> {
    if |p| < PREFIX then Err(EPROTO)
    else
      var num, dataLen := U32At(p, 8), U32At(p, 12);
      if num == 0 || num > MAX_MSGS then Err(EOPNOTSUPP)
      else if |p| < PREFIX + DESC * num then Err(EPROTO)
      else if |p| - PREFIX - DESC * num != dataLen then Err(EPROTO)
      else Ok(Parsed(U32At(p, 0), Requests(p, num, p[PREFIX + DESC * num..])))
  }

  // The request survives the wire.

  function Seen(m: Msg): Request
    requires m.Valid()
  {
    Request(m.addr, m.flags, |m.buf|, if m.Reads() then [] else m.buf)
  }

  function AllSeen(ms: seq<Msg>): (r: seq<Request>)
    requires AllValid(ms)
    ensures |r| == |ms|
    ensures forall i :: 0 <= i < |ms| ==> r[i] == Seen(ms[i])
  {
    seq(|ms|, i requires 0 <= i < |ms| => Seen(ms[i]))
  }

  lemma {:induction false} WrittenPiece(ms: seq<Msg>, i: nat)
    requires i < |ms|
    ensures |Written(ms[..i])| + |Written(ms[i..i + 1])| <= |Written(ms)|
    ensures Written(ms[i..i + 1]) == if ms[i].Reads() then [] else ms[i].buf
    ensures Written(ms)[|Written(ms[..i])|..|Written(ms[..i])| + |Written(ms[i..i + 1])|]
            == Written(ms[i..i + 1])
    decreases |ms|
  {
    var one := ms[i..i + 1];
    assert Init(one) == [];
    if i == |ms| - 1 {
      assert ms[..i] == Init(ms);
    } else {
      WrittenPiece(Init(ms), i);
      assert Init(ms)[..i] == ms[..i];
      assert Init(ms)[i..i + 1] == one;
    }
  }

  lemma {:induction false} DescriptorPiece(ms: seq<Msg>, i: nat)
    requires AllValid(ms) && i < |ms|
    ensures Descriptors(ms)[DESC * i..DESC * (i + 1)] == Descriptor(ms[i])
    decreases |ms|
  {
    if i < |ms| - 1 {
      DescriptorPiece(Init(ms), i);
      assert Descriptors(ms)[DESC * i..DESC * (i + 1)] == Descriptors(Init(ms))[DESC * i..DESC * (i + 1)];
    }
  }

  lemma DescriptorSplits(m: Msg)
    requires m.Valid()
    ensures
      var d := Descriptor(m);
      d[0..2] == LE16(m.addr) && d[2..4] == LE16(m.flags) && d[4..6] == LE16(|m.buf|)
  {
  }

  lemma {:induction false} DescriptorFields(p: seq<byte>, i: nat, m: Msg)
    requires m.Valid() && PREFIX + DESC * (i + 1) <= |p|
    requires p[PREFIX + DESC * i..PREFIX + DESC * (i + 1)] == Descriptor(m)
    ensures FieldsAt(p, i) == (m.addr, m.flags, |m.buf|)
  {
    hide LE16, U16At;
    var o, d := PREFIX + DESC * i, Descriptor(m);
    assert p[o..o + DESC] == d;
    assert p[o..o + 2] == p[o..o + DESC][0..2];
    assert p[o + 2..o + 4] == p[o..o + DESC][2..4];
    assert p[o + 4..o + 6] == p[o..o + DESC][4..6];
    DescriptorSplits(m);
    ReadsBack16(p, o, m.addr);
    ReadsBack16(p, o + 2, m.flags);
    ReadsBack16(p, o + 4, |m.buf|);
  }

  lemma {:induction false} EncodedFields(device: u32, bus: u32, ms: seq<Msg>, i: nat)
    requires AllValid(ms) && |ms| < U32 && |Written(ms)| < U32 && i < |ms|
    ensures FieldsAt(Encode(device, bus, ms), i) == (ms[i].addr, ms[i].flags, |ms[i].buf|)
  {
    var p, ds := Encode(device, bus, ms), Descriptors(ms);
    DescriptorPiece(ms, i);
    var a, b := DESC * i, DESC * (i + 1);
    assert p[PREFIX + a..PREFIX + b] == ds[a..b] by {
      hide Descriptors, Written, Prefix;
      assert 0 <= a <= b <= |ds|;
    }
    DescriptorFields(p, i, ms[i]);
  }

  lemma {:induction false} EncodedCursor(device: u32, bus: u32, ms: seq<Msg>, i: nat)
    requires AllValid(ms) && |ms| < U32 && |Written(ms)| < U32 && i <= |ms|
    ensures Cursor(Encode(device, bus, ms), i) == |Written(ms[..i])|
  {
    if i > 0 {
      EncodedCursor(device, bus, ms, i - 1);
      EncodedFields(device, bus, ms, i - 1);
      InitOfPrefix(ms, i - 1);
    }
  }

  lemma EncodedPrefix(device: u32, bus: u32, ms: seq<Msg>)
    requires AllValid(ms) && |ms| < U32 && |Written(ms)| < U32
    ensures
      var p := Encode(device, bus, ms);
      && U32At(p, 0) == device && U32At(p, 8) == |ms| && U32At(p, 12) == |Written(ms)|
      && p[PREFIX + DESC * |ms|..] == Written(ms)
  {
    hide Descriptors, Written, LE32, U32At;
    var p := Encode(device, bus, ms);
    var h := Prefix(device, bus, |ms|, |Written(ms)|);
    assert p[0..4] == h[0..4] == LE32(device);
    assert p[8..12] == h[8..12] == LE32(|ms|);
    assert p[12..16] == h[12..16] == LE32(|Written(ms)|);
    ReadsBack32(p, 0, device);
    ReadsBack32(p, 8, |ms|);
    ReadsBack32(p, 12, |Written(ms)|);
  }

  lemma EncodedRequest(device: u32, bus: u32, ms: seq<Msg>, i: nat)
    requires AllValid(ms) && |ms| < U32 && |Written(ms)| < U32 && i < |ms|
    ensures RequestAt(Encode(device, bus, ms), i, Written(ms)) == Seen(ms[i])
  {
    hide FieldsAt, Cursor, Encode, Written, Descriptors;
    EncodedFields(device, bus, ms, i);
    EncodedCursor(device, bus, ms, i);
    WrittenPiece(ms, i);
  }

  /** What the kernel packs, the daemon unpacks to the same messages. */
  lemma {:induction false} DecodeEncode(device: u32, bus: u32, ms: seq<Msg>)
    requires AllValid(ms) && 1 <= |ms| <= MAX_MSGS && |Written(ms)| < U32
    ensures Decode(Encode(device, bus, ms)) == Ok(Parsed(device, AllSeen(ms)))
  {
    var p := Encode(device, bus, ms);
    EncodedPrefix(device, bus, ms);
    var rs := Requests(p, |ms|, Written(ms));
    forall i | 0 <= i < |ms|
      ensures rs[i] == AllSeen(ms)[i]
    {
      EncodedRequest(device, bus, ms, i);
    }
    assert rs == AllSeen(ms);
  }
}
