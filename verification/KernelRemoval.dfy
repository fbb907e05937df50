/** What the kernel's removal commands remove, and that a removed device can be added again. */
module KernelRemoval {
  import opened Words
  import opened Names
  import opened KernelModel
  import opened KernelProofs

  // ---- The lists ----

  lemma {:induction false} UnlinkBetween<T(!new)>(a: seq<Object<T>>, o: Object<T>, b: seq<Object<T>>)
    requires forall x :: x in a || x in b ==> x.handle != o.handle
    ensures Unlink(a + [o] + b, o.handle) == a + b
    decreases |a|
  {
    var list := a + [o] + b;
    if a == [] {
      assert list[0] == o && list[1..] == b;
      UnlinkAbsent(b, o.handle);
    } else {
      assert a[0] in a;
      assert list[0] == a[0] && list[1..] == a[1..] + [o] + b;
      UnlinkBetween(a[1..], o, b);
      assert [a[0]] + (a[1..] + b) == a + b;
    }
  }

  /** Unlinking takes exactly one object out of a list and keeps the order of the others. */
  lemma {:induction false} UnlinkTakesOne<T(!new)>(list: seq<Object<T>>, i: nat)
    requires Distinct(list) && i < |list|
    ensures Unlink(list, list[i].handle) == list[..i] + list[i + 1..]
  {
    assert list == list[..i] + [list[i]] + list[i + 1..];
    UnlinkBetween(list[..i], list[i], list[i + 1..]);
  }

  lemma {:induction false} UnlinkAbsent<T(!new)>(list: seq<Object<T>>, h: u32)
    requires forall o :: o in list ==> o.handle != h
    ensures Unlink(list, h) == list
  {
    if list != [] {
      assert list[0] in list;
      UnlinkAbsent(list[1..], h);
    }
  }

  /** The devices that sit on other buses, in order. */
  function NotOn(list: seq<Device>, bus: u32): seq<Device> {
    if list == [] then []
    else (if list[0].info.bus == bus then [] else [list[0]]) + NotOn(list[1..], bus)
  }

  // ---- device_remove ----

  /** No list, index, location map or port slot knows the handle. */
  ghost predicate Forgotten(k: Kernel, handle: u32) {
    && handle !in k.deviceIndex
    && (forall o :: o in k.devices ==> o.handle != handle)
    && (forall b, loc :: b in k.locations && loc in k.locations[b] ==> k.locations[b][loc] != handle)
    && (forall b, i :: b in k.groups && i in k.groups[b].ports ==> k.groups[b].ports[i] != handle)
  }

  lemma UnindexedIsForgotten(k: Kernel, handle: u32)
    requires Inv(k) && handle !in k.deviceIndex
    ensures Forgotten(k, handle)
  {
    hide HasPort, RefsOk, BusesOk;
    forall b, loc | b in k.locations && loc in k.locations[b]
      ensures k.locations[b][loc] != handle
    {
      assert LocatedAt(k, k.locations[b][loc], b, loc);
    }
  }

  /**
   Removing a device the kernel has succeeds: exactly that device leaves the list, the buses stay, and
   nothing refers to it any more.
   */
  lemma {:induction false} DeviceRemoveRemoves(k: Kernel, i: nat, env: Env)
    requires Inv(k) && i < |k.devices|
    ensures
      var handle := k.devices[i].handle;
      var (k', status) := Execute(k, DeviceRemove(handle), env);
      && status == 0 && Inv(k')
      && k'.devices == k.devices[..i] + k.devices[i + 1..]
      && k'.deviceIndex == Erase(k.deviceIndex, handle)
      && k'.buses == k.buses && k'.busIndex == k.busIndex
      && Forgotten(k', handle)
  {
    hide Inv, Forgotten, DestroyDevice, Distinct, Unlink, Execute, Erase;
    var dev := k.devices[i];
    var handle := dev.handle;
    ListedFacts(k, i);
    RemoveDestroys(k, dev, env);
    DeviceRemoveKeepsInv(k, handle);
    DestroyFrame(k, dev);
    ErasedIsGone(k.deviceIndex, handle);
    DestroyUnlinks(k, dev);
    UnlinkTakesOne(k.devices, i);
    UnindexedIsForgotten(DestroyDevice(k, dev), handle);
  }

  lemma ErasedIsGone<K, V>(m: map<K, V>, x: K)
    ensures x !in Erase(m, x)
  {
  }

  lemma ListedFacts(k: Kernel, i: nat)
    requires Inv(k) && i < |k.devices|
    ensures Distinct(k.devices)
    ensures k.devices[i].handle in k.deviceIndex && k.deviceIndex[k.devices[i].handle] == k.devices[i]
  {
    hide BusesOk, LocationsOk, GroupsOk;
    assert k.devices[i] in k.devices;
  }

  lemma DestroyUnlinks(k: Kernel, dev: Device)
    ensures DestroyDevice(k, dev).devices == Unlink(k.devices, dev.handle)
  {
  }

  /** A handle the kernel has is the handle of a listed device; any other is refused. */
  lemma RemovableIsListed(k: Kernel, handle: u32, env: Env)
    requires Inv(k)
    ensures
      Execute(k, DeviceRemove(handle), env).1
        == if exists o :: o in k.devices && o.handle == handle then 0 else ENOENT
  {
    hide GroupsOk, LocationsOk, BusesOk, DestroyDevice;
    if handle in k.deviceIndex {
      assert k.deviceIndex[handle] in k.devices;
    }
  }

  // ---- Adding it again ----

  /** What device_add has checked of every device the kernel has. */
  ghost predicate Admitted(k: Kernel, portLimit: nat) {
    forall h :: h in k.deviceIndex ==> AdmittedInfo(k.deviceIndex[h].info, portLimit)
  }

  predicate AdmittedInfo(d: DeviceInfo, portLimit: nat) {
    && (d.transport == Spi ==> SpiSettingsOk(d.spi))
    && (d.transport == Uart ==>
          var p := KernelParseTty(d.name);
          p.Parsed? && p.index == d.location && p.index < portLimit)
  }

  lemma RegisteredIsAdmitted(groups: map<string, Group>, dev: Device, env: Env)
    requires RegisterUart(groups, dev, env).1 == 0
    ensures
      var p := KernelParseTty(dev.info.name);
      p.Parsed? && p.index == dev.info.location && p.index < env.portLimit
  {
    hide KernelParseTty, GroupPut, ClearSlot, SetSlot;
  }

  /** Every command keeps the devices admitted. */
  lemma ExecuteKeepsAdmitted(k: Kernel, c: Command, env: Env)
    requires Inv(k) && Admitted(k, env.portLimit)
    ensures Admitted(Execute(k, c, env).0, env.portLimit)
  {
    hide AdmittedInfo, UartNameTaken, RegisterUart, DestroyDevices, DestroyBuses, DestroyDevice;
    match c
    case BusAdd(bus) => hide BusNameStatus;
    case BusRemove(handle) =>
      if handle in k.busIndex {
        BusRemoveKeepsInv(k, handle);
      }
    case DeviceAdd(dev) => AddKeepsAdmitted(k, dev, env);
    case DeviceRemove(handle) =>
      if handle in k.deviceIndex {
        DestroyedIndex(k, k.deviceIndex[handle]);
      }
    case ResetAll => ResetEmptiesTheKernel(k);
  }

  lemma DestroyedIndex(k: Kernel, dev: Device)
    ensures DestroyDevice(k, dev).deviceIndex == Erase(k.deviceIndex, dev.handle)
  {
  }

  lemma AddKeepsAdmitted(k: Kernel, dev: Device, env: Env)
    requires Admitted(k, env.portLimit)
    ensures Admitted(CmdDeviceAdd(k, dev, env).0, env.portLimit)
  {
    hide RegisterUart, UartNameTaken, KernelParseTty;
    if dev.info.transport == Uart && RegisterUart(k.groups, dev, env).1 == 0 {
      RegisteredIsAdmitted(k.groups, dev, env);
    }
  }

  /** Over every sequence of commands under one port limit. */
  lemma {:induction false} EveryRunIsAdmitted(k: Kernel, cs: seq<(Command, Env)>, portLimit: nat)
    requires Inv(k) && Admitted(k, portLimit)
    requires forall i :: 0 <= i < |cs| ==> cs[i].1.portLimit == portLimit
    ensures Inv(ExecuteAll(k, cs)) && Admitted(ExecuteAll(k, cs), portLimit)
    decreases |cs|
  {
    hide Inv, Execute, Admitted;
    if cs != [] {
      ExecuteKeepsInv(k, cs[0].0, cs[0].1);
      ExecuteKeepsAdmitted(k, cs[0].0, cs[0].1);
      EveryRunIsAdmitted(Execute(k, cs[0].0, cs[0].1).0, cs[1..], portLimit);
    }
  }

  /** The checks the removed device meets again. */
  lemma RemovedIsAcceptable(k: Kernel, dev: Device)
    requires Inv(k) && dev.handle in k.deviceIndex && k.deviceIndex[dev.handle] == dev
    requires dev.info.transport == Spi ==> SpiSettingsOk(dev.info.spi)
    ensures DeviceStatus(DestroyDevice(k, dev), dev) == 0
  {
    hide GroupPut, ClearSlot, KernelParseTty, ListIs, SlotsHaveDevices, RefsOk;
    var k' := DestroyDevice(k, dev);
    if dev.info.transport == Uart && UartNameTaken(k', dev.info.name) {
      var list := k'.devices;
      var i :| 0 <= i < |list| && list[i].info.transport == Uart && list[i].info.name == dev.info.name;
      assert list[i] in list;
      ListedIsFound(k, list[i]);
      SameNameSameDevice(k, list[i], dev);
    }
  }

  lemma ListedIsFound(k: Kernel, o: Device)
    requires ListIs(k.devices, k.deviceIndex) && o in k.devices
    ensures o.handle in k.deviceIndex && k.deviceIndex[o.handle] == o
  {
  }

  lemma SameNameSameDevice(k: Kernel, d: Device, e: Device)
    requires DevicesHaveSlots(k.deviceIndex, k.groups)
    requires d.handle in k.deviceIndex && k.deviceIndex[d.handle] == d && d.info.transport == Uart
    requires e.handle in k.deviceIndex && k.deviceIndex[e.handle] == e && e.info.transport == Uart
    requires d.info.name == e.info.name
    ensures d.handle == e.handle
  {
    hide KernelParseTty;
  }

  lemma RemovedSlotIsFree(k: Kernel, dev: Device, env: Env)
    requires Inv(k) && dev.handle in k.deviceIndex && k.deviceIndex[dev.handle] == dev
    requires dev.info.transport == Uart && AdmittedInfo(dev.info, env.portLimit) && env.registers
    ensures RegisterUart(DestroyDevice(k, dev).groups, dev, env).1 == 0
  {
    hide KernelParseTty, ListIs, BusesOk, LocationsOk, SlotsHaveDevices;
    var p := KernelParseTty(dev.info.name);
    assert p.base in k.groups && k.groups[p.base].ports[p.index] == dev.handle;
    hide UnregisterUart;
    UnregistrationEffect(k.groups, dev, p.base, p.index);
    var groups := DestroyDevice(k, dev).groups;
    assert groups == WithoutSlot(k.groups, p.base, p.index);
    assert p.index !in PortsOf(groups, p.base);
    hide WithoutSlot;
    RegistersFreeSlot(groups, dev, env);
  }

  lemma RegistersFreeSlot(groups: map<string, Group>, dev: Device, env: Env)
    requires AdmittedInfo(dev.info, env.portLimit) && dev.info.transport == Uart && env.registers
    requires KernelParseTty(dev.info.name).index !in PortsOf(groups, KernelParseTty(dev.info.name).base)
    ensures RegisterUart(groups, dev, env).1 == 0
  {
    hide KernelParseTty, GroupPut, ClearSlot, SetSlot;
  }

  /**
   Removing a device and adding it again passes every check and puts back every index, location map, port
   slot and reference; the device is then the last of its list.
   */
  lemma {:induction false} RemoveThenAddRestores(k: Kernel, i: nat, env: Env)
    requires Inv(k) && Admitted(k, env.portLimit) && i < |k.devices| && env.registers
    ensures
      var dev := k.devices[i];
      var k1 := Execute(k, DeviceRemove(dev.handle), env).0;
      var (k2, status) := Execute(k1, DeviceAdd(dev), env);
      && status == 0
      && k2 == k.(devices := k.devices[..i] + k.devices[i + 1..] + [dev])
  {
    hide Inv, AdmittedInfo, DestroyDevice, DeviceStatus, RegisterUart, Forgotten, Execute, Erase, Distinct;
    var dev := k.devices[i];
    ListedFacts(k, i);
    assert AdmittedInfo(dev.info, env.portLimit);
    hide Admitted;
    AdmittedSettings(dev.info, env.portLimit);
    hide SpiSettingsOk;
    DeviceRemoveRemoves(k, i, env);
    RemoveDestroys(k, dev, env);
    RemovedIsAcceptable(k, dev);
    if dev.info.transport == Uart {
      RemovedSlotIsFree(k, dev, env);
    }
    var k1 := Execute(k, DeviceRemove(dev.handle), env).0;
    AddedStatus(k1, dev, env);
    DeviceAddKeepsInv(k1, dev, env);
    hide CmdDeviceAdd;
    var k2 := Execute(k1, DeviceAdd(dev), env).0;
    PutBack(k.deviceIndex, dev.handle);
    ExecuteAdd(k1, dev, env);
    SameIndexesSameRest(k2, k);
  }

  lemma RemoveDestroys(k: Kernel, dev: Device, env: Env)
    requires dev.handle in k.deviceIndex && k.deviceIndex[dev.handle] == dev
    ensures Execute(k, DeviceRemove(dev.handle), env) == (DestroyDevice(k, dev), 0)
  {
    hide DestroyDevice;
  }

  lemma AdmittedSettings(d: DeviceInfo, portLimit: nat)
    requires AdmittedInfo(d, portLimit)
    ensures d.transport == Spi ==> SpiSettingsOk(d.spi)
  {
  }

  lemma PutBack<K, V>(m: map<K, V>, x: K)
    requires x in m
    ensures Erase(m, x)[x := m[x]] == m
  {
  }

  lemma ExecuteAdd(k: Kernel, dev: Device, env: Env)
    ensures Execute(k, DeviceAdd(dev), env) == CmdDeviceAdd(k, dev, env)
  {
    hide CmdDeviceAdd;
  }

  lemma AddedStatus(k: Kernel, dev: Device, env: Env)
    requires DeviceStatus(k, dev) == 0 && env.registers
    requires dev.info.transport == Uart ==> RegisterUart(k.groups, dev, env).1 == 0
    ensures
      var (k', status) := CmdDeviceAdd(k, dev, env);
      && status == 0 && k'.devices == k.devices + [dev] && k'.deviceIndex == k.deviceIndex[dev.handle := dev]
      && k'.buses == k.buses && k'.busIndex == k.busIndex
  {
    hide RegisterUart, DeviceStatus;
  }

  lemma SameIndexesSameRest(k: Kernel, k': Kernel)
    requires Inv(k) && Inv(k') && k.deviceIndex == k'.deviceIndex && k.busIndex == k'.busIndex
    ensures k.locations == k'.locations && k.groups == k'.groups
  {
    hide ListIs, BusesOk, LocationsOk, GroupsOk;
    LocationsAreDetermined(k, k');
    GroupsAreDetermined(k.deviceIndex, k.groups, k'.groups);
  }

  // ---- bus_remove ----

  lemma {:induction false} NotOnUnlinks(list: seq<Device>, bus: u32, h: u32)
    requires forall o :: o in list && o.handle == h ==> o.info.bus == bus
    ensures NotOn(Unlink(list, h), bus) == NotOn(list, bus)
  {
    if list != [] {
      assert list[0] in list;
      NotOnUnlinks(list[1..], bus, h);
      if list[0].handle != h {
        assert ([list[0]] + Unlink(list[1..], h))[1..] == Unlink(list[1..], h);
      }
    }
  }

  lemma {:induction false} NotOnIsAll(list: seq<Device>, bus: u32)
    requires forall o :: o in list ==> o.info.bus != bus
    ensures NotOn(list, bus) == list
  {
    if list != [] {
      assert list[0] in list;
      NotOnIsAll(list[1..], bus);
    }
  }

  lemma {:induction false} DestroyedKeepsNotOn(k: Kernel, list: seq<Device>, bus: u32)
    requires Inv(k) && Registered(k.deviceIndex, list) && Distinct(list)
    ensures NotOn(DestroyDevices(k, list, Some(bus)).devices, bus) == NotOn(k.devices, bus)
    decreases |list|
  {
    if list == [] {
      return;
    }
    hide Distinct, Registered, NotOn;
    DevicesMatchIndex(k);
    var o, rest := list[0], list[1..];
    assert list == [o] + rest;
    RegisteredTail(k.deviceIndex, o, rest);
    if o.info.bus == bus {
      assert forall p :: p in k.devices && p.handle == o.handle ==> p == o;
      NotOnUnlinks(k.devices, bus, o.handle);
      hide Inv;
      DestroyDeviceKeepsInv(k, o);
      DestroyFrame(k, o);
      DestroyedKeepsNotOn(DestroyDevice(k, o), rest, bus);
    } else {
      DestroyedKeepsNotOn(k, rest, bus);
    }
  }

  /** Removing a bus the kernel has succeeds: it and exactly its devices leave the lists, the rest in order. */
  lemma {:induction false} BusRemoveRemoves(k: Kernel, i: nat, env: Env)
    requires Inv(k) && i < |k.buses|
    ensures
      var handle := k.buses[i].handle;
      var (k', status) := Execute(k, BusRemove(handle), env);
      && status == 0 && Inv(k')
      && k'.buses == k.buses[..i] + k.buses[i + 1..]
      && k'.devices == NotOn(k.devices, handle)
      && handle !in k'.busIndex && handle !in k'.locations
  {
    assert k.buses[i] in k.buses;
    var handle := k.buses[i].handle;
    BusRemoveKeepsInv(k, handle);
    DevicesMatchIndex(k);
    DestroyDevicesKeepsInv(k, k.devices, Some(handle));
    DestroyedKeepsNotOn(k, k.devices, handle);
    UnlinkTakesOne(k.buses, i);
    var k1 := DestroyDevices(k, k.devices, Some(handle));
    var k' := DestroyBus(k1, handle);
    RemainingAreElsewhere(k', handle);
    hide Inv, DestroyDevices, NotOn;
    NotOnIsAll(k'.devices, handle);
  }

  lemma RemainingAreElsewhere(k: Kernel, handle: u32)
    requires Inv(k) && handle !in k.busIndex
    ensures forall o :: o in k.devices ==> o.info.bus != handle
    ensures handle !in k.locations
  {
    hide GroupsOk;
    assert handle !in k.locations.Keys;
  }
}
