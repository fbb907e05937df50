/**
 The kernel's runtime inventory: bus and device lists, the two handle indexes, each bus's location
 index, and the UART groups with their port slots and reference counts, under every control command.
 */
module KernelModel {
  import opened Words
  import opened Names


  datatype Transport = Virtual | I2c | Spi | Uart

  datatype SpiSettings = SpiSettings(maxSpeed: nat, mode: nat, bits: nat)

  /** A kernel object: its handle and the rest of it. */
  datatype Object<T> = Object(handle: u32, info: T)

  datatype BusInfo = BusInfo(transport: Transport, name: string)
  datatype DeviceInfo = DeviceInfo(transport: Transport, bus: u32, location: u32, name: string, spi: SpiSettings)

  type Bus = Object<BusInfo>
  type Device = Object<DeviceInfo>

  /** A tty driver shared by the ports of one base name: occupied slots by index. */
  datatype Group = Group(refs: nat, ports: map<nat, u32>)

  datatype Kernel = Kernel(buses: seq<Bus>, devices: seq<Device>,
                           busIndex: map<u32, Bus>, deviceIndex: map<u32, Device>,
                           locations: map<u32, map<u32, u32>>, groups: map<string, Group>)

  /** What the environment decides: the tty port limit, and whether registrations succeed. */
  datatype Env = Env(portLimit: nat, registers: bool)

  datatype Command =
    | BusAdd(bus: Bus) | BusRemove(handle: u32)
    | DeviceAdd(dev: Device) | DeviceRemove(handle: u32)
    | ResetAll

  function EmptyKernel(): Kernel {
    Kernel([], [], map[], map[], map[], map[])
  }

  predicate OnBusLocation(t: Transport) { t == I2c || t == Spi }

  function Erase<K, V>(m: map<K, V>, k: K): map<K, V> {
    map x | x in m && x != k :: m[x]
  }

  function Put<K, V>(m: map<K, V>, k: K, v: V): map<K, V> {
    m[k := v]
  }

  function Unlink<T(!new)>(list: seq<Object<T>>, handle: u32): (r: seq<Object<T>>)
    ensures forall o :: o in r <==> o in list && o.handle != handle
  {
    if list == [] then []
    else if list[0].handle == handle then Unlink(list[1..], handle)
    else [list[0]] + Unlink(list[1..], handle)
  }

  // ---- UART groups ----

  /** group_get_locked: one more reference, creating the group on first use. */
  function GroupGet(groups: map<string, Group>, base: string): map<string, Group> {
    if base in groups then groups[base := groups[base].(refs := groups[base].refs + 1)]
    else groups[base := Group(1, map[])]
  }

  /** group_put_locked: one reference less, freeing the group with its last. */
  function GroupPut(groups: map<string, Group>, base: string): map<string, Group>
    requires base in groups
  {
    var refs := if groups[base].refs > 0 then groups[base].refs - 1 else 0;
    if refs > 0 then groups[base := groups[base].(refs := refs)] else Erase(groups, base)
  }

  function SetSlot(groups: map<string, Group>, base: string, index: nat, handle: u32): map<string, Group>
    requires base in groups
  {
    groups[base := groups[base].(ports := groups[base].ports[index := handle])]
  }

  function ClearSlot(groups: map<string, Group>, base: string, index: nat, handle: u32): map<string, Group>
    requires base in groups
  {
    if index in groups[base].ports && groups[base].ports[index] == handle
    then groups[base := groups[base].(ports := Erase(groups[base].ports, index))]
    else groups
  }

  /** register_uart: the new groups and a status; on failure the reference taken is given back. */
  function RegisterUart(groups: map<string, Group>, dev: Device, env: Env): (map<string, Group>, int) {
    match KernelParseTty(dev.info.name)
    case Invalid => (groups, EINVAL)
    case OutOfRange => (groups, ERANGE)
    case Parsed(base, index) =>
      if dev.info.location != index then (groups, EINVAL)
      else
        var got := GroupGet(groups, base);
        if index >= env.portLimit then (GroupPut(got, base), ERANGE)
        else if index in got[base].ports then (GroupPut(got, base), EEXIST)
        else
          var set_ := SetSlot(got, base, index, dev.handle);
          if env.registers then (set_, 0)
          else (GroupPut(ClearSlot(set_, base, index, dev.handle), base), ENODEV)
  }

  // ---- Commands ----

  function BusNameStatus(b: BusInfo): int {
    var p := if b.transport == I2c then KernelParseI2c(b.name)
             else if b.transport == Spi then KernelParseSpi(b.name)
             else Parsed("", 0);
    match p
    case Parsed(_, _) => 0
    case Invalid => EINVAL
    case OutOfRange => ERANGE
  }

  function CmdBusAdd(k: Kernel, bus: Bus, env: Env): (Kernel, int) {
    if bus.handle in k.busIndex then (k, EEXIST)
    else if BusNameStatus(bus.info) != 0 then (k, BusNameStatus(bus.info))
    else if OnBusLocation(bus.info.transport) && !env.registers then (k, ENODEV)
    else (k.(busIndex := k.busIndex[bus.handle := bus],
             buses := k.buses + [bus],
             locations := k.locations[bus.handle := map[]]), 0)
  }

  predicate UartNameTaken(k: Kernel, name: string) {
    exists i :: 0 <= i < |k.devices| && k.devices[i].info.transport == Uart && k.devices[i].info.name == name
  }

  predicate SpiSettingsOk(s: SpiSettings) {
    s.maxSpeed > 0 && 0 < s.bits <= 32 && s.mode <= 3
  }

  /** The checks before anything is registered. */
  function DeviceStatus(k: Kernel, dev: Device): int {
    var d := dev.info;
    if d.transport == Virtual then EINVAL
    else if dev.handle in k.deviceIndex then EEXIST
    else if d.bus !in k.busIndex || k.busIndex[d.bus].info.transport != d.transport then ENOENT
    else if OnBusLocation(d.transport) && d.bus in k.locations && d.location in k.locations[d.bus] then EEXIST
    else if d.transport == Uart && UartNameTaken(k, d.name) then EEXIST
    else if d.transport == Spi && !SpiSettingsOk(d.spi) then EINVAL
    else 0
  }

  function Insert(k: Kernel, dev: Device, groups: map<string, Group>): Kernel {
    var d := dev.info;
    k.(deviceIndex := k.deviceIndex[dev.handle := dev],
       devices := k.devices + [dev],
       locations := if OnBusLocation(d.transport) && d.bus in k.locations
                    then k.locations[d.bus := Put(k.locations[d.bus], d.location, dev.handle)]
                    else k.locations,
       groups := groups)
  }

  function CmdDeviceAdd(k: Kernel, dev: Device, env: Env): (Kernel, int) {
    if DeviceStatus(k, dev) != 0 then (k, DeviceStatus(k, dev))
    else if dev.info.transport == Spi && !env.registers then (k, ENODEV)
    else if dev.info.transport == Uart then
      var (groups, status) := RegisterUart(k.groups, dev, env);
      if status != 0 then (k.(groups := groups), status) else (Insert(k, dev, groups), 0)
    else (Insert(k, dev, k.groups), 0)
  }

  /** destroy_device: the location entry goes whatever the transport. */
  function DestroyDevice(k: Kernel, dev: Device): Kernel {
    var d := dev.info;
    k.(deviceIndex := Erase(k.deviceIndex, dev.handle),
       devices := Unlink(k.devices, dev.handle),
       locations := if d.bus in k.locations
                    then k.locations[d.bus := Erase(k.locations[d.bus], d.location)] else k.locations,
       groups := if d.transport == Uart then UnregisterUart(k.groups, dev) else k.groups)
  }

  function UnregisterUart(groups: map<string, Group>, dev: Device): map<string, Group> {
    match KernelParseTty(dev.info.name)
    case Parsed(base, index) =>
      if base in groups then GroupPut(ClearSlot(groups, base, index, dev.handle), base) else groups
    case _ => groups
  }

  function DestroyBus(k: Kernel, handle: u32): Kernel {
    k.(busIndex := Erase(k.busIndex, handle),
       buses := Unlink(k.buses, handle),
       locations := Erase(k.locations, handle))
  }

  predicate Doomed(dev: Device, bus: Option<u32>) {
    bus.None? || dev.info.bus == bus.value
  }

  /** Destroys the devices of a list snapshot that sit on the given bus, or all of them. */
  function DestroyDevices(k: Kernel, list: seq<Device>, bus: Option<u32>): Kernel
    decreases |list|
  {
    if list == [] then k
    else
      var k1 := if Doomed(list[0], bus) then DestroyDevice(k, list[0]) else k;
      DestroyDevices(k1, list[1..], bus)
  }

  function DestroyBuses(k: Kernel, list: seq<Bus>): Kernel
    decreases |list|
  {
    if list == [] then k else DestroyBuses(DestroyBus(k, list[0].handle), list[1..])
  }

  function CmdBusRemove(k: Kernel, handle: u32): (Kernel, int) {
    if handle !in k.busIndex then (k, ENOENT)
    else (DestroyBus(DestroyDevices(k, k.devices, Some(handle)), handle), 0)
  }

  function CmdDeviceRemove(k: Kernel, handle: u32): (Kernel, int) {
    if handle !in k.deviceIndex then (k, ENOENT) else (DestroyDevice(k, k.deviceIndex[handle]), 0)
  }

  function CmdReset(k: Kernel): Kernel {
    var k1 := DestroyDevices(k, k.devices, None);
    DestroyBuses(k1, k1.buses)
  }

  function Execute(k: Kernel, c: Command, env: Env): (Kernel, int) {
    match c
    case BusAdd(bus) => CmdBusAdd(k, bus, env)
    case BusRemove(handle) => CmdBusRemove(k, handle)
    case DeviceAdd(dev) => CmdDeviceAdd(k, dev, env)
    case DeviceRemove(handle) => CmdDeviceRemove(k, handle)
    case ResetAll => (CmdReset(k), 0)
  }

  function ExecuteAll(k: Kernel, cs: seq<(Command, Env)>): Kernel
    decreases |cs|
  {
    if cs == [] then k else ExecuteAll(Execute(k, cs[0].0, cs[0].1).0, cs[1..])
  }

  // ---- Invariant ----

  /** A handle index holds exactly the objects of its list, each once, under its own handle. */
  ghost predicate ListIs<T(!new)>(list: seq<Object<T>>, index: map<u32, Object<T>>) {
    && (forall o :: o in list ==> o.handle in index && index[o.handle] == o)
    && (forall h :: h in index ==> index[h].handle == h && index[h] in list)
    && Distinct(list)
  }

  ghost predicate Distinct<T(!new)>(list: seq<Object<T>>) {
    forall i, j :: 0 <= i < j < |list| ==> list[i].handle != list[j].handle
  }

  /** No device refers to a missing bus or to one of another transport. */
  ghost predicate BusesOk(k: Kernel) {
    forall h :: h in k.deviceIndex ==>
      var d := k.deviceIndex[h].info;
      d.transport != Virtual && d.bus in k.busIndex && k.busIndex[d.bus].info.transport == d.transport
  }

  /** Each bus's location index holds exactly its own I2C or SPI devices. */
  ghost predicate LocationsOk(k: Kernel) {
    && k.locations.Keys == k.busIndex.Keys
    && (forall h :: h in k.deviceIndex && OnBusLocation(k.deviceIndex[h].info.transport) ==>
          var d := k.deviceIndex[h].info;
          d.bus in k.locations && d.location in k.locations[d.bus] && k.locations[d.bus][d.location] == h)
    && (forall b, loc :: b in k.locations && loc in k.locations[b] ==>
          LocatedAt(k, k.locations[b][loc], b, loc))
  }

  predicate LocatedAt(k: Kernel, h: u32, b: u32, loc: u32) {
    && h in k.deviceIndex
    && k.deviceIndex[h].info.bus == b && k.deviceIndex[h].info.location == loc
    && OnBusLocation(k.deviceIndex[h].info.transport)
  }

  predicate HasPort(d: DeviceInfo, base: string, index: nat) {
    d.transport == Uart && KernelParseTty(d.name) == Parsed(base, index)
  }

  /** Every UART device occupies the slot its name parses to. */
  ghost predicate DevicesHaveSlots(deviceIndex: map<u32, Device>, groups: map<string, Group>) {
    forall h :: h in deviceIndex && deviceIndex[h].info.transport == Uart ==>
      var p := KernelParseTty(deviceIndex[h].info.name);
      p.Parsed? && p.base in groups && p.index in groups[p.base].ports
      && groups[p.base].ports[p.index] == h
  }

  /** Every occupied slot belongs to such a device. */
  ghost predicate SlotsHaveDevices(deviceIndex: map<u32, Device>, groups: map<string, Group>) {
    forall b, i :: b in groups && i in groups[b].ports ==>
      groups[b].ports[i] in deviceIndex && HasPort(deviceIndex[groups[b].ports[i]].info, b, i)
  }

  /** References count occupied slots, and no group is without any. */
  ghost predicate RefsOk(groups: map<string, Group>) {
    forall b :: b in groups ==> groups[b].refs == |groups[b].ports| > 0
  }

  ghost predicate GroupsOk(deviceIndex: map<u32, Device>, groups: map<string, Group>) {
    DevicesHaveSlots(deviceIndex, groups) && SlotsHaveDevices(deviceIndex, groups) && RefsOk(groups)
  }

  ghost predicate Inv(k: Kernel) {
    && ListIs(k.buses, k.busIndex) && ListIs(k.devices, k.deviceIndex)
    && BusesOk(k) && LocationsOk(k) && GroupsOk(k.deviceIndex, k.groups)
  }
}
