/** The I2C register bank of a template device, and the daemon's answer to a transfer, as values. */
module BankModel {
  import opened Words
  import opened Wire
  import opened I2cModel

  /** Registers, pointer and the template's options; effects lists what writing a register also sets. */
  datatype Bank = Bank(
    regs: seq<byte>, pointer: nat, width: nat, autoIncrement: bool,
    clearOnRead: set<nat>, effects: map<nat, seq<(nat, byte)>>)
  {
    ghost predicate Valid() {
      pointer < |regs| && 1 <= width <= 2
    }
  }

  /** The k-th register from p on, wrapping at the end of the bank. */
  function Slot(p: nat, k: nat, size: nat): (r: nat)
    requires size > 0
    ensures r < size
  {
    (p + k) % size
  }

  /** The n registers from p on, wrapping at the end of the bank, include r. */
  predicate Covers(p: nat, n: nat, size: nat, r: nat)
    requires size > 0
  {
    exists k :: 0 <= k < n && Slot(p, k, size) == r
  }

  // One read message.

  function ReadBytes(b: Bank, n: nat): (data: seq<byte>)
    requires b.Valid()
    ensures |data| == n
  {
    seq(n, k requires 0 <= k => b.regs[Slot(b.pointer, k, |b.regs|)])
  }

  ghost function Cleared(regs: seq<byte>, clear: set<nat>, p: nat, n: nat): (r: seq<byte>)
    requires regs != []
    ensures |r| == |regs|
  {
    seq(|regs|, i requires 0 <= i < |regs| => if i in clear && Covers(p, n, |regs|, i) then 0 else regs[i])
  }

  ghost function AfterRead(b: Bank, n: nat): (b': Bank)
    requires b.Valid()
    ensures b'.Valid() && |b'.regs| == |b.regs|
  {
    b.(regs := Cleared(b.regs, b.clearOnRead, b.pointer, n),
       pointer := if b.autoIncrement then (b.pointer + n) % |b.regs| else b.pointer)
  }

  // One write message.

  /** The pointer the first bytes of a write select, most significant byte first. */
  function BigEndian(s: seq<byte>): nat {
    if s == [] then 0 else BigEndian(Init(s)) * 256 + Last(s)
  }

  function ApplyEffects(regs: seq<byte>, es: seq<(nat, byte)>): (r: seq<byte>)
    requires regs != []
    ensures |r| == |regs|
  {
    if es == [] then regs
    else
      var (target, value) := Last(es);
      ApplyEffects(regs, Init(es))[target % |regs| := value]
  }

  function WriteOne(regs: seq<byte>, effects: map<nat, seq<(nat, byte)>>, r: nat, v: byte): (regs': seq<byte>)
    requires r < |regs|
    ensures |regs'| == |regs|
  {
    ApplyEffects(regs[r := v], if r in effects then effects[r] else [])
  }

  function WriteAll(regs: seq<byte>, effects: map<nat, seq<(nat, byte)>>, p: nat, data: seq<byte>): (regs': seq<byte>)
    requires regs != []
    ensures |regs'| == |regs|
    decreases |data|
  {
    if data == [] then regs
    else WriteOne(WriteAll(regs, effects, p, Init(data)), effects, Slot(p, |data| - 1, |regs|), Last(data))
  }

  function AfterWrite(b: Bank, data: seq<byte>): (b': Bank)
    requires b.Valid()
    ensures b'.Valid() && |b'.regs| == |b.regs|
  {
    if |data| < b.width then b
    else
      var p := BigEndian(data[..b.width]) % |b.regs|;
      var payload := data[b.width..];
      b.(regs := WriteAll(b.regs, b.effects, p, payload),
         pointer := if b.autoIncrement then (p + |payload|) % |b.regs| else p)
  }

  /** What writing a run of registers and selecting its start again reads back, when no effect fires. */
  lemma {:induction false} WrittenRegister(regs: seq<byte>, p: nat, data: seq<byte>, k: nat)
    requires k < |data| <= |regs|
    ensures WriteAll(regs, map[], p, data)[Slot(p, k, |regs|)] == data[k]
    decreases |data|
  {
    var n := |regs|;
    if k < |data| - 1 {
      WrittenRegister(regs, p, Init(data), k);
      DistinctWithinLap(p + k, p + |data| - 1, n);
    }
  }

  lemma {:induction false} ReadBackReturnsWritten(b: Bank, select: seq<byte>, payload: seq<byte>)
    requires b.Valid() && |select| == b.width && |payload| <= |b.regs| && b.effects == map[]
    ensures ReadBytes(AfterWrite(AfterWrite(b, select + payload), select), |payload|) == payload
  {
    var n := |b.regs|;
    var p := BigEndian(select) % n;
    assert (select + payload)[..b.width] == select && (select + payload)[b.width..] == payload;
    assert select[..b.width] == select && select[b.width..] == [];
    var b2 := AfterWrite(AfterWrite(b, select + payload), select);
    assert b2.pointer == p by {
      ModOfSum(0, p, n);
    }
    assert b2.regs == WriteAll(b.regs, map[], p, payload);
    forall k | 0 <= k < |payload|
      ensures ReadBytes(b2, |payload|)[k] == payload[k]
    {
      WrittenRegister(b.regs, p, payload, k);
    }
  }

  // Running a transfer directly on the bank, message by message.

  ghost function After(b: Bank, m: Msg): (b': Bank)
    requires b.Valid()
    ensures b'.Valid() && |b'.regs| == |b.regs|
  {
    if m.Reads() then AfterRead(b, |m.buf|) else AfterWrite(b, m.buf)
  }

  ghost function Direct(b: Bank, ms: seq<Msg>): (b': Bank)
    requires b.Valid()
    ensures b'.Valid() && |b'.regs| == |b.regs|
    decreases |ms|
  {
    if ms == [] then b else After(Direct(b, Init(ms)), Last(ms))
  }

  /** What the i-th message of the transfer reads when the messages run directly on the bank. */
  ghost function DirectRead(b: Bank, ms: seq<Msg>, i: nat): (data: seq<byte>)
    requires b.Valid() && i < |ms|
    ensures |data| == |ms[i].buf|
  {
    ReadBytes(Direct(b, ms[..i]), |ms[i].buf|)
  }

  // The daemon's run over the messages it unpacked.

  ghost function Served(b: Bank, rs: seq<Request>): (r: (Bank, seq<byte>))
    requires b.Valid()
    ensures r.0.Valid() && |r.0.regs| == |b.regs|
    decreases |rs|
  {
    if rs == [] then (b, [])
    else
      var (b1, reply) := Served(b, Init(rs));
      var q := Last(rs);
      if q.Reads() then (AfterRead(b1, q.len), reply + ReadBytes(b1, q.len))
      else (AfterWrite(b1, q.data), reply)
  }

  /** The part of the reply the kernel copies into the i-th message. */
  function ReplyPart(ms: seq<Msg>, reply: seq<byte>, i: nat): seq<byte>
    requires i < |ms| && RxLen(ms[..i]) <= RxLen(ms[..i + 1]) <= |reply|
  {
    reply[RxLen(ms[..i])..RxLen(ms[..i + 1])]
  }

  lemma {:induction false} RxLenGrows(ms: seq<Msg>, i: nat)
    requires i < |ms|
    ensures RxLen(ms[..i + 1]) == RxLen(ms[..i]) + (if ms[i].Reads() then |ms[i].buf| else 0)
    ensures RxLen(ms[..i + 1]) <= RxLen(ms)
    decreases |ms|
  {
    InitOfPrefix(ms, i);
    if i == |ms| - 1 {
      assert ms[..i + 1] == ms;
    } else {
      RxLenGrows(Init(ms), i);
      assert Init(ms)[..i] == ms[..i] && Init(ms)[..i + 1] == ms[..i + 1];
    }
  }

  /** The daemon's run is the direct run, its reply has exactly the length of the reads. */
  lemma {:induction false} ServedIsDirect(b: Bank, ms: seq<Msg>)
    requires b.Valid() && AllValid(ms)
    ensures Served(b, AllSeen(ms)).0 == Direct(b, ms)
    ensures |Served(b, AllSeen(ms)).1| == RxLen(ms)
    decreases |ms|
  {
    if ms != [] {
      ServedIsDirect(b, Init(ms));
      assert Init(AllSeen(ms)) == AllSeen(Init(ms));
    }
  }

  lemma ServedStep(b: Bank, ms: seq<Msg>)
    requires b.Valid() && AllValid(ms) && ms != []
    ensures AllValid(Init(ms))
    ensures
      Served(b, AllSeen(ms)).1 == Served(b, AllSeen(Init(ms))).1
        + (if Last(ms).Reads() then ReadBytes(Direct(b, Init(ms)), |Last(ms).buf|) else [])
  {
    ServedIsDirect(b, Init(ms));
    assert Init(AllSeen(ms)) == AllSeen(Init(ms));
  }

  /** The part of the daemon's reply each read message gets is what it reads directly. */
  lemma {:induction false} PartIsDirectRead(b: Bank, ms: seq<Msg>, i: nat)
    requires b.Valid() && AllValid(ms) && i < |ms| && ms[i].Reads()
    ensures |Served(b, AllSeen(ms)).1| == RxLen(ms)
    ensures RxLen(ms[..i]) <= RxLen(ms[..i + 1]) <= RxLen(ms)
    ensures ReplyPart(ms, Served(b, AllSeen(ms)).1, i) == DirectRead(b, ms, i)
    decreases |ms|
  {
    hide Served, Direct, RxLen, AllSeen, ReadBytes;
    var short := Init(ms);
    ServedIsDirect(b, ms);
    ServedIsDirect(b, short);
    ServedStep(b, ms);
    RxLenGrows(ms, i);
    if i == |ms| - 1 {
      assert ms[..i] == short && ms[..i + 1] == ms;
    } else {
      PartIsDirectRead(b, short, i);
      assert short[..i] == ms[..i] && short[..i + 1] == ms[..i + 1];
    }
  }
}
