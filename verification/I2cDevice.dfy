/** The daemon's template device: an in-place register bank behind the request parser. */
module I2cDevice {
  import opened Words
  import opened Wire
  import opened Faults
  import opened I2cModel
  import opened BankModel
  import opened TransferModel

  class RegisterBank {
    const registers: array<byte>
    const width: nat
    const autoIncrement: bool
    const clearOnRead: set<nat>
    const effects: map<nat, seq<(nat, byte)>>
    var pointer: nat

    constructor (size: nat, width: nat, autoIncrement: bool, clearOnRead: set<nat>,
                 effects: map<nat, seq<(nat, byte)>>, initial: map<nat, byte>)
      requires size > 0 && 1 <= width <= 2
      requires forall r :: r in initial ==> r < size
      ensures Valid() && fresh(registers)
      ensures View() == Bank(registers[..], 0, width, autoIncrement, clearOnRead, effects)
      ensures registers.Length == size
      ensures forall r :: 0 <= r < size ==> registers[r] == if r in initial then initial[r] else 0
    {
      this.registers := new byte[size](r => if r in initial then initial[r] else 0);
      this.width := width;
      this.autoIncrement := autoIncrement;
      this.clearOnRead := clearOnRead;
      this.effects := effects;
      this.pointer := 0;
    }

    ghost predicate Valid()
      reads this`pointer
    {
      pointer < registers.Length && 1 <= width <= 2
    }

    ghost function View(): (b: Bank)
      reads this`pointer, registers
      ensures Valid() ==> b.Valid()
    {
      Bank(registers[..], pointer, width, autoIncrement, clearOnRead, effects)
    }

    method ReadRegisters(length: nat) returns (data: seq<byte>)
      requires Valid()
      modifies this`pointer, registers
      ensures Valid()
      ensures data == ReadBytes(old(View()), length)
      ensures View() == AfterRead(old(View()), length)
    {
      var start, size := pointer, registers.Length;
      ghost var before := registers[..];
      data := [];
      var index := 0;
      while index < length
        invariant index <= length && registers[..] == before && pointer == start
        invariant data == ReadBytes(old(View()), length)[..index]
      {
        data := data + [registers[Slot(start, index, size)]];
        index := index + 1;
      }
      index := 0;
      while index < length
        invariant index <= length && pointer == start
        invariant registers[..] == Cleared(before, clearOnRead, start, index)
      {
        var register := Slot(start, index, size);
        if register in clearOnRead {
          registers[register] := 0;
        }
        ClearedMore(before, clearOnRead, start, index);
        index := index + 1;
      }
      if autoIncrement {
        pointer := (start + length) % size;
      }
    }

    method WriteRegisters(data: seq<byte>)
      requires Valid()
      modifies this`pointer, registers
      ensures Valid()
      ensures View() == AfterWrite(old(View()), data)
    {
      if |data| < width {
        return;
      }
      var size := registers.Length;
      pointer := BigEndian(data[..width]) % size;
      var p := pointer;
      var payload := data[width..];
      ghost var before := registers[..];
      var offset := 0;
      while offset < |payload|
        invariant offset <= |payload| && pointer == p
        invariant registers[..] == WriteAll(before, effects, p, payload[..offset])
      {
        InitOfPrefix(payload, offset);
        WriteRegister(Slot(p, offset, size), payload[offset]);
        offset := offset + 1;
      }
      assert payload[..offset] == payload;
      if autoIncrement {
        pointer := (p + |payload|) % size;
      }
    }

    method WriteRegister(register: nat, value: byte)
      requires register < registers.Length
      modifies registers
      ensures registers[..] == WriteOne(old(registers[..]), effects, register, value)
    {
      registers[register] := value;
      ghost var before := registers[..];
      var es := if register in effects then effects[register] else [];
      var j := 0;
      while j < |es|
        invariant j <= |es|
        invariant registers[..] == ApplyEffects(before, es[..j])
      {
        InitOfPrefix(es, j);
        var (target, v) := es[j];
        registers[target % registers.Length] := v;
        j := j + 1;
      }
      assert es[..j] == es;
    }

    /** Runs the messages in order and joins what the reads returned. */
    method HandleI2c(messages: seq<Request>) returns (reply: seq<byte>)
      requires Valid()
      modifies this`pointer, registers
      ensures Valid()
      ensures (View(), reply) == Served(old(View()), messages)
    {
      hide AfterRead, AfterWrite, ReadBytes;
      reply := [];
      var i := 0;
      while i < |messages|
        invariant i <= |messages| && Valid()
        invariant (View(), reply) == Served(old(View()), messages[..i])
      {
        InitOfPrefix(messages, i);
        var m := messages[i];
        if m.Reads() {
          var data := ReadRegisters(m.len);
          reply := reply + data;
        } else {
          WriteRegisters(m.data);
        }
        i := i + 1;
      }
      assert messages[..i] == messages;
    }
  }

  lemma ClearedMore(regs: seq<byte>, clear: set<nat>, p: nat, n: nat)
    requires regs != []
    ensures
      var r := Slot(p, n, |regs|);
      Cleared(regs, clear, p, n + 1)
        == if r in clear then Cleared(regs, clear, p, n)[r := 0] else Cleared(regs, clear, p, n)
  {
    var size := |regs|;
    forall i | 0 <= i < size
      ensures Covers(p, n + 1, size, i) <==> Covers(p, n, size, i) || Slot(p, n, size) == i
    {
      if Covers(p, n, size, i) {
        var k :| 0 <= k < n && Slot(p, k, size) == i;
        assert 0 <= k < n + 1;
      }
    }
  }

  /** Unpacks a request: descriptors first, then the messages with their slices of the data. */
  method Unpack(payload: seq<byte>) returns (r: Result<Parsed>)
    ensures r == Decode(payload)
  {
    hide U16At, U32At;
    if |payload| < PREFIX {
      return Err(EPROTO);
    }
    var device, num, dataLen := U32At(payload, 0), U32At(payload, 8), U32At(payload, 12);
    if num == 0 || num > MAX_MSGS {
      return Err(EOPNOTSUPP);
    }
    if |payload| < PREFIX + DESC * num {
      return Err(EPROTO);
    }
    var offset := PREFIX;
    var descs: seq<(u16, u16, u16)> := [];
    var index := 0;
    while index < num
      invariant index <= num == U32At(payload, 8) && offset == PREFIX + DESC * index
      invariant |descs| == index && forall i :: 0 <= i < index ==> descs[i] == FieldsAt(payload, i)
    {
      descs := descs + [(U16At(payload, offset), U16At(payload, offset + 2), U16At(payload, offset + 4))];
      offset := offset + DESC;
      index := index + 1;
    }
    var txData := payload[offset..];
    if |txData| != dataLen {
      return Err(EPROTO);
    }
    var messages: seq<Request> := [];
    var cursor := 0;
    index := 0;
    while index < num
      invariant index <= num && cursor == Cursor(payload, index)
      invariant messages == Requests(payload, index, txData)
    {
      var flags, length: nat := descs[index].1, descs[index].2;
      var chunk := [];
      if flags % 2 == 0 {
        chunk := Slice(txData, cursor, cursor + length);
        cursor := cursor + length;
      }
      messages := messages + [Request(descs[index].0, flags, length, chunk)];
      index := index + 1;
    }
    return Ok(Parsed(device, messages));
  }

  class TemplateDevice {
    const address: u16
    const bank: RegisterBank
    const faults: FaultPlan

    constructor (address: u16, bank: RegisterBank, faults: FaultPlan)
      ensures this.address == address && this.bank == bank && this.faults == faults
    {
      this.address := address;
      this.bank := bank;
      this.faults := faults;
    }

    ghost function View(): (d: Dev)
      reads faults, bank`pointer, bank.registers
      ensures bank.Valid() ==> d.bank.Valid()
    {
      Dev(address, faults.fault, bank.View())
    }

  }

  class I2cDaemon {
    var devices: map<u32, TemplateDevice>

    constructor (devices: map<u32, TemplateDevice>)
      ensures this.devices == devices
    {
      this.devices := devices;
    }

    ghost function Touched(handle: u32): set<object>
      reads this`devices
    {
      if handle in devices then
        {devices[handle].faults, devices[handle].bank, devices[handle].bank.registers}
      else {}
    }

    ghost predicate Ready(handle: u32)
      reads this`devices, Touched(handle)
    {
      handle in devices ==> devices[handle].bank.Valid()
    }

    ghost function View(handle: u32): (d: Option<Dev>)
      reads this`devices, Touched(handle)
      ensures Ready(handle) && d.Some? ==> d.value.bank.Valid()
    {
      if handle in devices then Some(devices[handle].View()) else None
    }

    static ghost function Named(payload: seq<byte>): u32 {
      if |payload| < PREFIX then 0 else U32At(payload, 0)
    }

    method HandleI2cRequest(payload: seq<byte>) returns (status: int, data: seq<byte>)
      requires Ready(Named(payload))
      modifies Touched(Named(payload))
      ensures Ready(Named(payload))
      ensures Answer(status, data, View(Named(payload))) == Answered(payload, old(View(Named(payload))))
    {
      hide U32At, Requests, Served, Consumed, Shortened;
      var r := Unpack(payload);
      if r.Err? {
        return r.status, [];
      }
      var request := r.value;
      if request.device !in devices {
        return ENOENT, [];
      }
      var device := devices[request.device];
      var preFault := device.faults.ApplyPre();
      if preFault.Some? {
        return preFault.value, [];
      }
      if exists i :: 0 <= i < |request.messages| && request.messages[i].addr != device.address {
        return EOPNOTSUPP, [];
      }
      data := device.bank.HandleI2c(request.messages);
      data := device.faults.ApplyPost(data);
      status := 0;
    }
  }
}
