/** How accesses to a register bank follow one another: reads, clears, writes, effects, and whole transfers. */
module BankLaws {
  import opened Words
  import opened Wire
  import opened Faults
  import opened I2cModel
  import opened BankModel
  import opened TransferModel

  // ---- Reads ----

  /** Where a read of n bytes leaves the next access. */
  function NextStart(b: Bank, n: nat): nat {
    if b.autoIncrement then b.pointer + n else b.pointer
  }

  lemma SlotAgain(p: nat, k: nat, size: nat)
    requires size > 0
    ensures Slot(p % size, k, size) == Slot(p, k, size)
  {
    var q := p / size;
    assert p + k == q * size + (p % size + k);
    var r := p % size + k;
    assert p + k == (q + r / size) * size + r % size;
    ModOfSum(q + r / size, r % size, size);
  }

  /**
   A read after a read: it starts behind the first with auto-increment and where the first did without, and
   gets zero from the registers the first has cleared.
   */
  lemma {:induction false} ReadAfterRead(b: Bank, n: nat, m: nat, k: nat)
    requires b.Valid() && k < m
    ensures
      var r := Slot(NextStart(b, n), k, |b.regs|);
      ReadBytes(AfterRead(b, n), m)[k]
        == if r in b.clearOnRead && Covers(b.pointer, n, |b.regs|, r) then 0 else b.regs[r]
  {
    hide Covers;
    SlotAgain(NextStart(b, n), k, |b.regs|);
    if !b.autoIncrement {
      SlotAgain(b.pointer, k, |b.regs|);
    }
  }

  lemma CoversFirst(p: nat, n: nat, size: nat, k: nat)
    requires size > 0 && k < n
    ensures Covers(p, n, size, Slot(p, k, size))
  {
  }

  /** A register that is cleared on reading reads once: a second read of it gives zero. */
  lemma {:induction false} ClearOnReadReadsOnce(b: Bank, n: nat, k: nat)
    requires b.Valid() && !b.autoIncrement && k < n && Slot(b.pointer, k, |b.regs|) in b.clearOnRead
    ensures ReadBytes(AfterRead(b, n), n)[k] == 0
  {
    ReadAfterRead(b, n, n, k);
    CoversFirst(b.pointer, n, |b.regs|, k);
  }

  lemma NothingCleared(regs: seq<byte>, p: nat, n: nat)
    requires regs != []
    ensures Cleared(regs, {}, p, n) == regs
  {
    hide Covers;
  }

  /** Without clear-on-read and with auto-increment, two reads are one read of both lengths. */
  lemma {:induction false} ReadsJoin(b: Bank, n: nat, m: nat)
    requires b.Valid() && b.autoIncrement && b.clearOnRead == {}
    ensures ReadBytes(b, n + m) == ReadBytes(b, n) + ReadBytes(AfterRead(b, n), m)
    ensures AfterRead(AfterRead(b, n), m) == AfterRead(b, n + m)
  {
    hide AfterRead, ReadBytes;
    MovesOn(b, n);
    MovesOn(b, n + m);
    var b1 := AfterRead(b, n);
    MovesOn(b1, m);
    SlotAgain(b.pointer + n, m, |b.regs|);
    forall k | 0 <= k < n + m
      ensures ReadBytes(b, n + m)[k] == (ReadBytes(b, n) + ReadBytes(b1, m))[k]
    {
      ReadAt(b, n + m, k);
      if k < n {
        ReadAt(b, n, k);
      } else {
        ReadAt(b1, m, k - n);
        SlotAgain(b.pointer + n, k - n, |b.regs|);
      }
    }
  }

  lemma ReadAt(b: Bank, n: nat, k: nat)
    requires b.Valid() && k < n
    ensures ReadBytes(b, n)[k] == b.regs[Slot(b.pointer, k, |b.regs|)]
  {
  }

  /** A plain read only moves the pointer. */
  lemma MovesOn(b: Bank, n: nat)
    requires b.Valid() && b.autoIncrement && b.clearOnRead == {}
    ensures AfterRead(b, n) == b.(pointer := Slot(b.pointer, n, |b.regs|))
  {
    NothingCleared(b.regs, b.pointer, n);
    hide Cleared;
  }

  /** Without auto-increment every read starts at the same register. */
  lemma {:induction false} ReadsRepeat(b: Bank, n: nat, m: nat)
    requires b.Valid() && !b.autoIncrement && b.clearOnRead == {}
    ensures AfterRead(b, n) == b && ReadBytes(AfterRead(b, n), m) == ReadBytes(b, m)
  {
    hide Covers, Cleared;
    NothingCleared(b.regs, b.pointer, n);
  }

  // ---- Writes ----

  /** The pointer bytes come most significant first. */
  lemma PointerBytes(x: byte, y: byte)
    ensures BigEndian([x]) == x && BigEndian([x, y]) == 256 * x + y
  {
    assert Init([x, y]) == [x] && Init([x]) == [];
    assert BigEndian([]) == 0;
    assert BigEndian([x]) == BigEndian([]) * 256 + x;
  }

  /** The register the first bytes of a write select. */
  function Selected(b: Bank, data: seq<byte>): (p: nat)
    requires b.Valid() && |data| >= b.width
    ensures p < |b.regs|
  {
    (if b.width == 1 then data[0] else 256 * data[0] + data[1]) % |b.regs|
  }

  lemma SelectedIsPointer(b: Bank, data: seq<byte>)
    requires b.Valid() && |data| >= b.width
    ensures BigEndian(data[..b.width]) % |b.regs| == Selected(b, data)
  {
    if b.width == 1 {
      assert data[..1] == [data[0]];
      PointerBytes(data[0], 0);
    } else {
      assert data[..2] == [data[0], data[1]];
      PointerBytes(data[0], data[1]);
    }
  }

  /**
   A write selects a register; the next read starts behind what was written with auto-increment, and at the
   selected register without. A write too short to select one changes nothing.
   */
  lemma {:induction false} WriteSetsPointer(b: Bank, data: seq<byte>)
    requires b.Valid()
    ensures |data| < b.width ==> AfterWrite(b, data) == b
    ensures |data| >= b.width ==>
      AfterWrite(b, data).pointer
        == (if b.autoIncrement then Selected(b, data) + |data| - b.width else Selected(b, data)) % |b.regs|
  {
    if |data| >= b.width {
      SelectedIsPointer(b, data);
      hide WriteAll, BigEndian;
      SmallMod(Selected(b, data), |b.regs|);
    }
  }

  lemma SmallMod(x: nat, m: nat)
    requires x < m
    ensures x % m == x
  {
  }

  /** The last effect on a register decides; a register no effect names keeps its value. */
  lemma {:induction false} LastEffectWins(regs: seq<byte>, es: seq<(nat, byte)>, r: nat)
    requires r < |regs|
    ensures (forall i :: 0 <= i < |es| ==> es[i].0 % |regs| != r) ==> ApplyEffects(regs, es)[r] == regs[r]
    ensures
      forall i :: 0 <= i < |es| && es[i].0 % |regs| == r && (forall j :: i < j < |es| ==> es[j].0 % |regs| != r) ==>
        ApplyEffects(regs, es)[r] == es[i].1
    decreases |es|
  {
    if es != [] {
      var before := Init(es);
      LastEffectWins(regs, before, r);
      assert forall i :: 0 <= i < |before| ==> before[i] == es[i];
      assert ApplyEffects(regs, es)
          == ApplyEffects(regs, before)[es[|before|].0 % |regs| := es[|before|].1];
      hide ApplyEffects;
    }
  }

  /** Writing one register stores its value and then fires its effects, and nothing else. */
  lemma {:induction false} WriteFiresEffects(b: Bank, data: seq<byte>)
    requires b.Valid() && |data| == b.width + 1
    ensures
      var r := Selected(b, data);
      AfterWrite(b, data).regs
        == ApplyEffects(b.regs[r := data[b.width]], if r in b.effects then b.effects[r] else [])
  {
    SelectedIsPointer(b, data);
    var payload := data[b.width..];
    assert payload == [data[b.width]] && Init(payload) == [];
    hide BigEndian, ApplyEffects;
    SmallMod(Selected(b, data), |b.regs|);
    assert WriteAll(b.regs, b.effects, Selected(b, data), []) == b.regs;
  }

  /** Writing a run of registers is writing them one by one from the selected one on. */
  lemma {:induction false} WritesFollowOneAnother(b: Bank, data: seq<byte>, v: byte)
    requires b.Valid() && |data| >= b.width
    ensures
      var r := Slot(Selected(b, data), |data| - b.width, |b.regs|);
      AfterWrite(b, data + [v]).regs
        == ApplyEffects(AfterWrite(b, data).regs[r := v], if r in b.effects then b.effects[r] else [])
  {
    SelectedIsPointer(b, data);
    assert (data + [v])[..b.width] == data[..b.width];
    var payload := data[b.width..];
    assert (data + [v])[b.width..] == payload + [v];
    assert Init(payload + [v]) == payload;
    hide BigEndian, ApplyEffects;
  }

  // ---- Whole transfers ----

  predicate OnlyReads(ms: seq<Msg>) {
    forall i :: 0 <= i < |ms| ==> ms[i].Reads()
  }

  lemma RunMore(b: Bank, pre: seq<Msg>, ms: seq<Msg>)
    requires b.Valid() && ms != []
    ensures Init(pre + ms) == pre + Init(ms) && Last(pre + ms) == Last(ms)
  {
  }

  /** Read messages after any others read on, as one read of all their bytes. */
  lemma {:induction false} TrailingReadsAreOneRead(b: Bank, pre: seq<Msg>, ms: seq<Msg>)
    requires b.Valid() && AllValid(pre + ms) && AllValid(pre) && OnlyReads(ms)
    requires b.autoIncrement && b.clearOnRead == {}
    ensures Direct(b, pre).Valid() && |Direct(b, pre).regs| == |b.regs|
    ensures Direct(b, pre + ms) == AfterRead(Direct(b, pre), RxLen(ms))
    ensures
      Served(b, AllSeen(pre + ms)).1 == Served(b, AllSeen(pre)).1 + ReadBytes(Direct(b, pre), RxLen(ms))
    decreases |ms|
  {
    hide Direct, Served, ReadBytes, AfterRead, AllSeen, RxLen;
    OptionsStay(b, pre);
    var b0 := Direct(b, pre);
    if ms == [] {
      assert pre + ms == pre;
      NoRead(b0);
      NoLength();
    } else {
      RunMore(b, pre, ms);
      var all, n, m := pre + ms, RxLen(Init(ms)), |Last(ms).buf|;
      assert AllValid(pre + Init(ms)) && OnlyReads(Init(ms)) && Last(ms).Reads();
      TrailingReadsAreOneRead(b, pre, Init(ms));
      ServedStep(b, all);
      DirectStep(b, all);
      LengthStep(ms);
      ReadsJoin(b0, n, m);
      Regroup(Served(b, AllSeen(pre)).1, ReadBytes(b0, n), ReadBytes(AfterRead(b0, n), m));
    }
  }

  lemma NoLength()
    ensures RxLen([]) == 0
  {
  }

  lemma LengthStep(ms: seq<Msg>)
    requires ms != [] && Last(ms).Reads()
    ensures RxLen(ms) == RxLen(Init(ms)) + |Last(ms).buf|
  {
  }

  lemma Regroup(x: seq<byte>, y: seq<byte>, z: seq<byte>)
    ensures x + y + z == x + (y + z)
  {
  }

  lemma DirectStep(b: Bank, ms: seq<Msg>)
    requires b.Valid() && ms != []
    ensures Direct(b, ms) == After(Direct(b, Init(ms)), Last(ms))
  {
  }

  lemma NoRead(b: Bank)
    requires b.Valid() && b.autoIncrement && b.clearOnRead == {}
    ensures AfterRead(b, 0) == b && ReadBytes(b, 0) == []
  {
    NothingCleared(b.regs, b.pointer, 0);
    SmallMod(b.pointer, |b.regs|);
    hide Cleared;
  }

  lemma {:induction false} OptionsStay(b: Bank, ms: seq<Msg>)
    requires b.Valid()
    ensures
      var b' := Direct(b, ms);
      b'.autoIncrement == b.autoIncrement && b'.clearOnRead == b.clearOnRead && b'.width == b.width
    decreases |ms|
  {
    hide AfterWrite;
    if ms != [] {
      OptionsStay(b, Init(ms));
      WriteKeepsOptions(Direct(b, Init(ms)), Last(ms).buf);
    }
  }

  lemma WriteKeepsOptions(b: Bank, data: seq<byte>)
    requires b.Valid()
    ensures
      var b' := AfterWrite(b, data);
      b'.autoIncrement == b.autoIncrement && b'.clearOnRead == b.clearOnRead && b'.width == b.width
  {
    hide WriteAll, BigEndian;
  }

  /** A transfer of reads gets consecutive registers from the pointer on, whatever the reads are cut into. */
  lemma {:induction false} ReadTransferIsConsecutive(handle: u32, bus: u32, ms: seq<Msg>, d: Dev, k: nat)
    requires AllValid(ms) && d.bank.Valid() && Transferable(ms, d) && d.fault == NoFault
    requires OnlyReads(ms) && d.bank.autoIncrement && d.bank.clearOnRead == {} && k < RxLen(ms)
    ensures
      var o := Transfer(handle, bus, ms, Some(d));
      && o.ret == |ms| && |o.reply| == RxLen(ms)
      && o.reply[k] == d.bank.regs[(d.bank.pointer + k) % |d.bank.regs|]
      && o.dev.Some? && o.dev.value.bank == d.bank.(pointer := (d.bank.pointer + RxLen(ms)) % |d.bank.regs|)
  {
    hide Transfer, Served, Direct, RxLen, AllSeen, AfterRead, ReadBytes, RequestFits;
    assert [] + ms == ms;
    TrailingReadsAreOneRead(d.bank, [], ms);
    NothingServed(d.bank);
    TransferReply(handle, bus, ms, d);
    MovesOn(d.bank, RxLen(ms));
    ReadAt(d.bank, RxLen(ms), k);
    assert [] + ReadBytes(d.bank, RxLen(ms)) == ReadBytes(d.bank, RxLen(ms));
  }

  lemma NothingServed(b: Bank)
    requires b.Valid()
    ensures Served(b, AllSeen([])) == (b, []) && Direct(b, []) == b
  {
  }

  /** Without a fault the kernel gets the daemon's reply, whole. */
  lemma TransferReply(handle: u32, bus: u32, ms: seq<Msg>, d: Dev)
    requires AllValid(ms) && d.bank.Valid() && Transferable(ms, d) && d.fault == NoFault
    ensures
      Transfer(handle, bus, ms, Some(d))
        == Outcome(|ms|, Served(d.bank, AllSeen(ms)).1, Some(d.(bank := Direct(d.bank, ms))))
  {
    hide Answered, Encode, Served, Direct, Written, RxLen;
    AnswerOfTransfer(handle, bus, ms, d);
    ServedIsDirect(d.bank, ms);
    var data := Served(d.bank, AllSeen(ms)).1;
    assert data[..RxLen(ms)] == data;
  }

  /**
   The usual transfer, a register address and then reads: the reads get consecutive registers from the
   addressed one on.
   */
  lemma {:induction false} SelectThenRead(handle: u32, bus: u32, select: Msg, ms: seq<Msg>, d: Dev, k: nat)
    requires AllValid([select] + ms) && d.bank.Valid() && Transferable([select] + ms, d) && d.fault == NoFault
    requires !select.Reads() && |select.buf| == d.bank.width && OnlyReads(ms)
    requires d.bank.autoIncrement && d.bank.clearOnRead == {} && k < RxLen(ms)
    ensures
      var o := Transfer(handle, bus, [select] + ms, Some(d));
      && o.ret == |ms| + 1 && |o.reply| == RxLen(ms)
      && o.reply[k] == d.bank.regs[(Selected(d.bank, select.buf) + k) % |d.bank.regs|]
  {
    hide Transfer, Served, Direct, RxLen, AllSeen, AfterRead, ReadBytes, RequestFits;
    assert AllValid([select]) by { assert ([select] + ms)[0] == select; }
    SelectOnly(d.bank, select);
    TrailingReadsAreOneRead(d.bank, [select], ms);
    SelectedLength(select, ms);
    ReadAt(Direct(d.bank, [select]), RxLen(ms), k);
    TransferReply(handle, bus, [select] + ms, d);
    assert [] + ReadBytes(Direct(d.bank, [select]), RxLen(ms)) == ReadBytes(Direct(d.bank, [select]), RxLen(ms));
  }

  lemma {:induction false} SelectedLength(select: Msg, ms: seq<Msg>)
    requires !select.Reads()
    ensures RxLen([select] + ms) == RxLen(ms)
    decreases |ms|
  {
    var all := [select] + ms;
    if ms == [] {
      assert Init(all) == [] && Last(all) == select;
    } else {
      assert Init(all) == [select] + Init(ms) && Last(all) == Last(ms);
      SelectedLength(select, Init(ms));
    }
  }

  lemma SelectOnly(b: Bank, select: Msg)
    requires b.Valid() && select.Valid() && !select.Reads() && |select.buf| == b.width
    ensures AllValid([select])
    ensures Direct(b, [select]) == b.(pointer := Selected(b, select.buf))
    ensures Served(b, AllSeen([select])).1 == []
  {
    assert Init([select]) == [] && Last([select]) == select;
    assert AllSeen([select]) == [Seen(select)] && Init([Seen(select)]) == [];
    SelectedIsPointer(b, select.buf);
    SmallMod(Selected(b, select.buf), |b.regs|);
    assert select.buf[b.width..] == [];
    hide BigEndian;
    assert Direct(b, []) == b;
    assert AfterWrite(b, select.buf) == b.(pointer := Selected(b, select.buf));
  }

  // ---- Faults ----

  function ConsumedTimes(f: Fault, n: nat): Fault {
    if n == 0 then f else Consumed(ConsumedTimes(f, n - 1))
  }

  /** A fault fires exactly as often as it says, and for ever if it says zero; until then it stays the same fault. */
  lemma {:induction false} FaultFiresAsOftenAsSet(f: Fault, n: nat)
    requires !f.NoFault?
    ensures ConsumedTimes(f, n) == NoFault <==> 0 < f.remaining <= n
    ensures f.remaining == 0 ==> ConsumedTimes(f, n) == f
    ensures n < f.remaining ==> ConsumedTimes(f, n) == f.(remaining := f.remaining - n)
    ensures ConsumedTimes(NoFault, n) == NoFault
  {
    if n > 0 {
      FaultFiresAsOftenAsSet(f, n - 1);
    }
  }

  // ---- Refusals ----

  /** What the kernel refuses by itself changes nothing and has its own error. */
  lemma {:induction false} KernelRefusals(handle: u32, bus: u32, ms: seq<Msg>, d: Option<Dev>)
    requires AllValid(ms) && (d.Some? ==> d.value.bank.Valid())
    ensures |ms| == 0 || |ms| > 256 || (exists i :: 0 <= i < |ms| && ms[i].addr != ms[0].addr) ==>
      Transfer(handle, bus, ms, d) == Outcome(EOPNOTSUPP, [], d)
    ensures 1 <= |ms| <= 256 && (forall i :: 0 <= i < |ms| ==> ms[i].addr == ms[0].addr) ==>
      (16 + 8 * |ms| + |Written(ms)| > MAX_PAYLOAD || RxLen(ms) > MAX_PAYLOAD ==>
         Transfer(handle, bus, ms, d) == Outcome(EMSGSIZE, [], d))
  {
    hide Answered, Encode, Written, RxLen, Completed;
  }

  /** A device that does not exist, or whose address is another, is not touched. */
  lemma {:induction false} OtherDevicesAreSpared(handle: u32, bus: u32, ms: seq<Msg>, d: Dev)
    requires AllValid(ms) && d.bank.Valid() && 1 <= |ms| <= MAX_MSGS && OneAddress(ms) && RequestFits(ms)
    ensures Transfer(handle, bus, ms, None) == Outcome(ENOENT, [], None)
    ensures ms[0].addr != d.address && d.fault == NoFault ==>
      Transfer(handle, bus, ms, Some(d)) == Outcome(EOPNOTSUPP, [], Some(d))
  {
    hide Decode, Encode, Served, Written, RxLen;
    DecodeEncode(handle, bus, ms);
  }
}
