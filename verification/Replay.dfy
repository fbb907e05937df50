/**
 Replaying a model into the kernel: the daemon numbers buses from 1 and devices from 1024, packs one
 command each, and the kernel accepts every item of a well-formed model that its limits allow.
 */
module Replay {
  import opened Words
  import opened Names
  import opened KernelModel
  import opened KernelProofs
  import opened RuntimeModel

  const FIRST_BUS: nat := 1
  const FIRST_DEVICE: nat := 1024
  const NAME_FIELD: nat := 64

  /** The node name a device is registered under. */
  function NodeName(d: ModelDevice): string {
    match d.place
    case Address(_) => d.id
    case ChipSelect(_, node) => node
    case Port(port) => port
  }

  function Location(d: ModelDevice): nat {
    match d.place
    case Address(a) => a
    case ChipSelect(cs, _) => cs
    case Port(port) => var p := DaemonParseTty(port); if p.Parsed? then p.index else 0
  }

  function KBus(b: ModelBus, handle: u32): Bus {
    Object(handle, BusInfo(b.transport, b.name))
  }

  function KDevice(d: ModelDevice, handle: u32, bus: u32): Device
    requires Location(d) < U32
  {
    Object(handle, DeviceInfo(PlaceTransport(d.place), bus, Location(d), NodeName(d), d.spi))
  }

  /** _add_bus_locked up to the write: None where packing raises or the kernel refuses. */
  function SendBus(k: Kernel, b: ModelBus, handle: nat, env: Env): Option<Kernel> {
    if |b.name| >= NAME_FIELD || handle >= U32 then None
    else
      var (k', status) := CmdBusAdd(k, KBus(b, handle), env);
      if status == 0 then Some(k') else None
  }

  function SendDevice(k: Kernel, d: ModelDevice, handle: nat, bus: nat, env: Env): Option<Kernel> {
    if |NodeName(d)| >= NAME_FIELD || handle >= U32 || bus >= U32 then None
    else if Location(d) >= U32 || d.spi.maxSpeed >= U32 then None
    else
      var (k', status) := CmdDeviceAdd(k, KDevice(d, handle, bus), env);
      if status == 0 then Some(k') else None
  }

  // ---- Limits of the environment, item by item ----

  predicate BusWithinLimits(b: ModelBus) {
    |b.name| < NAME_FIELD && BusNameStatus(BusInfo(b.transport, b.name)) == 0
  }

  predicate DeviceWithinLimits(d: ModelDevice, env: Env) {
    && |NodeName(d)| < NAME_FIELD && d.spi.maxSpeed < U32
    && (d.place.Port? ==> KernelParseTty(d.place.port).Parsed? && KernelParseTty(d.place.port).index < env.portLimit)
  }

  // ---- A kernel that mirrors a prefix of the model ----

  function BusPosition(buses: seq<ModelBus>, id: string): (p: nat)
    ensures p < |buses| ==> buses[p].id == id
    ensures (exists b :: b in buses && b.id == id) ==> p < |buses|
  {
    if buses == [] then 0 else if buses[0].id == id then 0 else BusPosition(buses[1..], id) + 1
  }

  function BusHandle(buses: seq<ModelBus>, id: string): nat {
    FIRST_BUS + BusPosition(buses, id)
  }

  ghost predicate MirrorsBuses(k: Kernel, buses: seq<ModelBus>) {
    && |k.buses| == |buses| && FIRST_BUS + |buses| <= U32
    && forall i :: 0 <= i < |buses| ==> k.buses[i] == KBus(buses[i], FIRST_BUS + i)
  }

  ghost predicate MirrorsDevices(k: Kernel, buses: seq<ModelBus>, devices: seq<ModelDevice>) {
    && |k.devices| == |devices| && FIRST_DEVICE + |devices| <= U32
    && forall i :: 0 <= i < |devices| ==>
         && Location(devices[i]) < U32 && BusHandle(buses, devices[i].bus) < U32
         && k.devices[i] == KDevice(devices[i], FIRST_DEVICE + i, BusHandle(buses, devices[i].bus))
  }

  /** The next bus is accepted exactly when its name is within the kernel's limits. */
  lemma BusReplays(k: Kernel, buses: seq<ModelBus>, b: ModelBus, env: Env)
    requires Inv(k) && MirrorsBuses(k, buses) && env.registers && FIRST_BUS + |buses| < U32
    ensures SendBus(k, b, FIRST_BUS + |buses|, env).Some? <==> BusWithinLimits(b)
    ensures SendBus(k, b, FIRST_BUS + |buses|, env).Some? ==>
      var k' := SendBus(k, b, FIRST_BUS + |buses|, env).value;
      Inv(k') && MirrorsBuses(k', buses + [b]) && k'.devices == k.devices
  {
    var h := FIRST_BUS + |buses|;
    assert h !in k.busIndex by {
      assert forall o :: o in k.buses ==> o.handle < h;
      assert forall x :: x in k.busIndex ==> k.busIndex[x] in k.buses && k.busIndex[x].handle == x;
    }
    if |b.name| < NAME_FIELD {
      BusAddKeepsInv(k, KBus(b, h), env);
    }
    hide Inv, BusNameStatus;
  }

  lemma HandleIsFresh(k: Kernel, buses: seq<ModelBus>, devices: seq<ModelDevice>)
    requires ListIs(k.devices, k.deviceIndex) && MirrorsDevices(k, buses, devices)
    ensures FIRST_DEVICE + |devices| !in k.deviceIndex
  {
    assert forall o :: o in k.devices ==> o.handle < FIRST_DEVICE + |devices|;
  }

  lemma BusIsThere(k: Kernel, buses: seq<ModelBus>, d: ModelDevice)
    requires ListIs(k.buses, k.busIndex) && MirrorsBuses(k, buses) && DeviceFits(d, BusMap(buses))
    requires forall i, j :: 0 <= i < j < |buses| ==> !BusesClash(buses[i], buses[j])
    ensures BusPosition(buses, d.bus) < |buses| && BusMap(buses)[d.bus] == buses[BusPosition(buses, d.bus)]
    ensures BusHandle(buses, d.bus) in k.busIndex
    ensures k.busIndex[BusHandle(buses, d.bus)].info.transport == PlaceTransport(d.place)
  {
    var p := BusPosition(buses, d.bus);
    var b := BusMap(buses)[d.bus];
    assert b in buses && b.id == d.bus;
    var q :| 0 <= q < |buses| && buses[q] == b;
    assert !BusesClash(buses[if p < q then p else q], buses[if p < q then q else p]) || p == q;
    assert k.buses[p] in k.buses;
  }

  /** The device list entry behind an indexed handle. */
  lemma IndexedDevice(k: Kernel, buses: seq<ModelBus>, devices: seq<ModelDevice>, h: u32) returns (i: nat)
    requires ListIs(k.devices, k.deviceIndex) && MirrorsDevices(k, buses, devices) && h in k.deviceIndex
    ensures i < |devices| && Location(devices[i]) < U32 && BusHandle(buses, devices[i].bus) < U32
    ensures k.deviceIndex[h] == KDevice(devices[i], FIRST_DEVICE + i, BusHandle(buses, devices[i].bus))
  {
    i :| 0 <= i < |k.devices| && k.devices[i] == k.deviceIndex[h];
  }

  /** An occupied location is some earlier device's, on the same bus of the model. */
  lemma OccupiedLocationClashes(k: Kernel, buses: seq<ModelBus>, devices: seq<ModelDevice>, d: ModelDevice)
    returns (i: nat)
    requires ListIs(k.devices, k.deviceIndex) && LocationsOk(k) && MirrorsDevices(k, buses, devices)
    requires forall i :: 0 <= i < |devices| ==> DeviceFits(devices[i], BusMap(buses))
    requires DeviceFits(d, BusMap(buses)) && Location(d) < U32 && BusHandle(buses, d.bus) < U32
    requires OnBusLocation(PlaceTransport(d.place)) && BusHandle(buses, d.bus) in k.locations
    requires Location(d) in k.locations[BusHandle(buses, d.bus)]
    ensures i < |devices| && Key(devices[i]) == Key(d)
  {
    hide ListIs, SpiSettingsOk, IsSpiBusName, IsName;
    var b := BusHandle(buses, d.bus);
    var h := k.locations[b][Location(d)];
    assert LocatedAt(k, h, b, Location(d));
    i := IndexedDevice(k, buses, devices, h);
    assert BusPosition(buses, devices[i].bus) == BusPosition(buses, d.bus) < |buses|;
    assert devices[i].bus == d.bus;
  }

  /** A taken UART name is some earlier device's port name. */
  lemma TakenNameClashes(k: Kernel, buses: seq<ModelBus>, devices: seq<ModelDevice>, d: ModelDevice) returns (i: nat)
    requires MirrorsDevices(k, buses, devices) && d.place.Port? && UartNameTaken(k, d.place.port)
    ensures i < |devices| && Key(devices[i]) == Key(d)
  {
    i :| 0 <= i < |k.devices| && k.devices[i].info.transport == Uart && k.devices[i].info.name == d.place.port;
  }

  /** An occupied port slot is some earlier device's port, under the very same name. */
  lemma OccupiedSlotClashes(k: Kernel, buses: seq<ModelBus>, devices: seq<ModelDevice>, d: ModelDevice) returns (i: nat)
    requires ListIs(k.devices, k.deviceIndex) && SlotsHaveDevices(k.deviceIndex, k.groups)
    requires MirrorsDevices(k, buses, devices) && d.place.Port? && IsPortName(d.place.port)
    requires forall i :: 0 <= i < |devices| ==> DeviceFits(devices[i], BusMap(buses))
    requires
      var p := KernelParseTty(d.place.port);
      p.Parsed? && p.index in PortsOf(k.groups, p.base)
    ensures i < |devices| && Key(devices[i]) == Key(d)
  {
    hide ListIs, KernelParseTty, IsPortName, SpiSettingsOk, IsName;
    var p := KernelParseTty(d.place.port);
    var h := k.groups[p.base].ports[p.index];
    assert HasPort(k.deviceIndex[h].info, p.base, p.index);
    i := IndexedDevice(k, buses, devices, h);
    assert DeviceFits(devices[i], BusMap(buses));
    PortNameSplitsAgree(d.place.port);
    PortNameSplitsAgree(devices[i].place.port);
    PortNamesAreInjective(d.place.port, devices[i].place.port);
  }

  /** The kernel's checks pass for the next device of a well-formed model. */
  lemma DeviceStatusIsOk(k: Kernel, buses: seq<ModelBus>, devices: seq<ModelDevice>, d: ModelDevice)
    requires Inv(k) && MirrorsBuses(k, buses) && MirrorsDevices(k, buses, devices)
    requires WellFormed(buses, devices + [d]) && Location(d) < U32 && FIRST_DEVICE + |devices| < U32
    ensures BusHandle(buses, d.bus) < U32
    ensures DeviceStatus(k, KDevice(d, FIRST_DEVICE + |devices|, BusHandle(buses, d.bus))) == 0
  {
    WellFormedParts(buses, devices, d);
    BusIsThere(k, buses, d);
    HandleIsFresh(k, buses, devices);
    hide WellFormed, ListIs, GroupsOk, BusMap, IsSpiBusName, IsName, IsPortName;
    hide UartNameTaken, DaemonParseTty, KernelParseTty;
    if OnBusLocation(PlaceTransport(d.place)) {
      if Location(d) in k.locations[BusHandle(buses, d.bus)] {
        var i := OccupiedLocationClashes(k, buses, devices, d);
      }
    }
    if d.place.Port? {
      if UartNameTaken(k, d.place.port) {
        var i := TakenNameClashes(k, buses, devices, d);
      }
    }
  }

  lemma WellFormedParts(buses: seq<ModelBus>, devices: seq<ModelDevice>, d: ModelDevice)
    requires WellFormed(buses, devices + [d])
    ensures WellFormed(buses, devices) && DeviceFits(d, BusMap(buses))
    ensures forall i :: 0 <= i < |devices| ==> DeviceFits(devices[i], BusMap(buses)) && Key(devices[i]) != Key(d)
    ensures forall i, j :: 0 <= i < j < |buses| ==> !BusesClash(buses[i], buses[j])
  {
    hide BusFits, DeviceFits, BusesClash, BusMap, Key;
    var all := devices + [d];
    assert all[|devices|] == d;
    forall i | 0 <= i < |devices|
      ensures DeviceFits(devices[i], BusMap(buses)) && !DevicesClash(devices[i], d)
    {
      assert all[i] == devices[i];
    }
    forall i, j | 0 <= i < j < |devices|
      ensures !DevicesClash(devices[i], devices[j])
    {
      assert all[i] == devices[i] && all[j] == devices[j];
    }
  }

  /** When a registration succeeds, the environment willing. */
  lemma RegistrationOutcome(groups: map<string, Group>, dev: Device, env: Env)
    requires env.registers
    ensures
      var p := KernelParseTty(dev.info.name);
      RegisterUart(groups, dev, env).1 == 0
      <==> p.Parsed? && dev.info.location == p.index && p.index < env.portLimit
           && p.index !in PortsOf(groups, p.base)
  {
    hide KernelParseTty, GroupPut, ClearSlot, SetSlot;
  }

  /** Registering the port of the next device succeeds exactly within the kernel's limits. */
  lemma RegistrationReplays(k: Kernel, buses: seq<ModelBus>, devices: seq<ModelDevice>, d: ModelDevice,
                            handle: u32, env: Env)
    requires Inv(k) && MirrorsDevices(k, buses, devices) && env.registers
    requires WellFormed(buses, devices + [d]) && Location(d) < U32 && d.place.Port? && BusHandle(buses, d.bus) < U32
    ensures
      var p := KernelParseTty(d.place.port);
      RegisterUart(k.groups, KDevice(d, handle, BusHandle(buses, d.bus)), env).1 == 0
      <==> p.Parsed? && p.index < env.portLimit
  {
    WellFormedParts(buses, devices, d);
    PortNameSplitsAgree(d.place.port);
    RegistrationOutcome(k.groups, KDevice(d, handle, BusHandle(buses, d.bus)), env);
    hide WellFormed, ListIs, DevicesHaveSlots, SlotsHaveDevices, BusMap, KernelParseTty, IsPortName, RegisterUart;
    var p := KernelParseTty(d.place.port);
    if p.Parsed? {
      if p.index in PortsOf(k.groups, p.base) {
        var i := OccupiedSlotClashes(k, buses, devices, d);
      }
    }
  }

  /** The next device of a well-formed model is accepted exactly when it is within the limits. */
  lemma DeviceReplays(k: Kernel, buses: seq<ModelBus>, devices: seq<ModelDevice>, d: ModelDevice, env: Env)
    requires Inv(k) && MirrorsBuses(k, buses) && MirrorsDevices(k, buses, devices) && env.registers
    requires WellFormed(buses, devices + [d]) && FIRST_DEVICE + |devices| < U32
    ensures
      var r := SendDevice(k, d, FIRST_DEVICE + |devices|, BusHandle(buses, d.bus), env);
      && (r.Some? <==> DeviceWithinLimits(d, env))
      && (r.Some? ==> Inv(r.value) && MirrorsBuses(r.value, buses) && MirrorsDevices(r.value, buses, devices + [d]))
  {
    hide Inv, WellFormed, IsPortName, KernelParseTty, DaemonParseTty, RegisterUart, DeviceStatus, BusHandle;
    var handle := FIRST_DEVICE + |devices|;
    LocationLimit(buses, devices, d);
    if Location(d) < U32 {
      DeviceStatusIsOk(k, buses, devices, d);
      var dev := KDevice(d, handle, BusHandle(buses, d.bus));
      DeviceAddKeepsInv(k, dev, env);
      if d.place.Port? {
        RegistrationReplays(k, buses, devices, d, handle, env);
      }
    }
  }

  /** A port index beyond 32 bits is out of both sides' range. */
  lemma LocationLimit(buses: seq<ModelBus>, devices: seq<ModelDevice>, d: ModelDevice)
    requires WellFormed(buses, devices + [d])
    ensures !d.place.Port? ==> Location(d) < U32
    ensures d.place.Port? && Location(d) >= U32 ==> !KernelParseTty(d.place.port).Parsed?
  {
    WellFormedParts(buses, devices, d);
    if d.place.Port? {
      PortNameSplitsAgree(d.place.port);
    }
  }

  // ---- Whole models ----

  /** The kernel after the first n buses, None as soon as one is refused. */
  function AfterBuses(buses: seq<ModelBus>, n: nat, env: Env): Option<Kernel>
    requires n <= |buses|
  {
    if n == 0 then Some(EmptyKernel()) else
    match AfterBuses(buses, n - 1, env)
    case None => None
    case Some(k) => SendBus(k, buses[n - 1], FIRST_BUS + (n - 1), env)
  }

  /** The kernel after all buses and the first n devices. */
  function AfterDevices(buses: seq<ModelBus>, devices: seq<ModelDevice>, n: nat, env: Env): Option<Kernel>
    requires n <= |devices|
  {
    if n == 0 then AfterBuses(buses, |buses|, env) else
    match AfterDevices(buses, devices, n - 1, env)
    case None => None
    case Some(k) => SendDevice(k, devices[n - 1], FIRST_DEVICE + (n - 1), BusHandle(buses, devices[n - 1].bus), env)
  }

  lemma {:induction false} BusesReplay(buses: seq<ModelBus>, n: nat, env: Env)
    requires n <= |buses| && FIRST_BUS + |buses| <= U32 && env.registers
    ensures AfterBuses(buses, n, env).Some? <==> forall i :: 0 <= i < n ==> BusWithinLimits(buses[i])
    ensures AfterBuses(buses, n, env).Some? ==>
      var k := AfterBuses(buses, n, env).value;
      Inv(k) && MirrorsBuses(k, buses[..n]) && k.devices == []
  {
    hide Inv, SendBus, BusWithinLimits;
    if n == 0 {
      EmptyIsInv();
    } else {
      BusesReplay(buses, n - 1, env);
      assert buses[..n] == buses[..n - 1] + [buses[n - 1]];
      if AfterBuses(buses, n - 1, env).Some? {
        BusReplays(AfterBuses(buses, n - 1, env).value, buses[..n - 1], buses[n - 1], env);
      }
    }
  }

  lemma WellFormedPrefix(buses: seq<ModelBus>, devices: seq<ModelDevice>, n: nat)
    requires WellFormed(buses, devices) && n <= |devices|
    ensures WellFormed(buses, devices[..n])
  {
    hide BusFits, DeviceFits, BusesClash, DevicesClash, BusMap;
  }

  /**
   Every well-formed model replays into an empty kernel without any rejection for handles, buses,
   transports, locations, ports or SPI settings: the replay succeeds if and only if each item is
   within the kernel's limits, and then the kernel holds exactly the model, in order.
   */
  lemma {:induction false} ModelReplays(buses: seq<ModelBus>, devices: seq<ModelDevice>, n: nat, env: Env)
    requires n <= |devices| && WellFormed(buses, devices) && env.registers
    requires FIRST_BUS + |buses| <= U32 && FIRST_DEVICE + |devices| <= U32
    ensures AfterDevices(buses, devices, n, env).Some? <==>
      && (forall i :: 0 <= i < |buses| ==> BusWithinLimits(buses[i]))
      && (forall i :: 0 <= i < n ==> DeviceWithinLimits(devices[i], env))
    ensures AfterDevices(buses, devices, n, env).Some? ==>
      var k := AfterDevices(buses, devices, n, env).value;
      Inv(k) && MirrorsBuses(k, buses) && MirrorsDevices(k, buses, devices[..n])
  {
    hide Inv, SendDevice, BusWithinLimits, DeviceWithinLimits, WellFormed;
    if n == 0 {
      BusesReplay(buses, |buses|, env);
      assert buses[..|buses|] == buses;
    } else {
      ModelReplays(buses, devices, n - 1, env);
      assert devices[..n] == devices[..n - 1] + [devices[n - 1]];
      if AfterDevices(buses, devices, n - 1, env).Some? {
        WellFormedPrefix(buses, devices, n);
        DeviceReplays(AfterDevices(buses, devices, n - 1, env).value, buses, devices[..n - 1], devices[n - 1], env);
      }
    }
  }
}
