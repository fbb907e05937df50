/** The kernel's control commands as they mutate the runtime state. */
module KernelInventory {
  import opened Words
  import opened Names
  import opened KernelModel
  import opened KernelProofs

  lemma AddDeviceFacts(k: Kernel, dev: Device, env: Env)
    requires Inv(k)
    ensures Inv(CmdDeviceAdd(k, dev, env).0)
    ensures CmdDeviceAdd(k, dev, env).1 != 0 ==> CmdDeviceAdd(k, dev, env).0 == k
  {
    hide Inv, CmdDeviceAdd;
    DeviceAddKeepsInv(k, dev, env);
    if CmdDeviceAdd(k, dev, env).1 != 0 {
      RejectedCommandChangesNothing(k, DeviceAdd(dev), env);
    }
  }

  class RuntimeState {
    var buses: seq<Bus>
    var devices: seq<Device>
    var busIndex: map<u32, Bus>
    var deviceIndex: map<u32, Device>
    var locations: map<u32, map<u32, u32>>
    var groups: map<string, Group>

    ghost function View(): Kernel
      reads this
    {
      Kernel(buses, devices, busIndex, deviceIndex, locations, groups)
    }

    constructor ()
      ensures View() == EmptyKernel() && Inv(View())
    {
      buses, devices := [], [];
      busIndex, deviceIndex, locations, groups := map[], map[], map[], map[];
      new;
      EmptyIsInv();
    }

    /** find_uart_device_name_locked walks the device list. */
    method FindUartName(name: string) returns (taken: bool)
      ensures taken == UartNameTaken(View(), name)
    {
      var i := 0;
      while i < |devices|
        invariant i <= |devices|
        invariant forall j :: 0 <= j < i ==> devices[j].info.transport != Uart || devices[j].info.name != name
      {
        if devices[i].info.transport == Uart && devices[i].info.name == name {
          return true;
        }
        i := i + 1;
      }
      return false;
    }

    method AddBus(bus: Bus, env: Env) returns (status: int)
      requires Inv(View())
      modifies this
      ensures Inv(View()) && (View(), status) == CmdBusAdd(old(View()), bus, env)
      ensures status != 0 ==> View() == old(View())
    {
      BusAddKeepsInv(View(), bus, env);
      hide Inv, BusNameStatus;
      if bus.handle in busIndex {
        return EEXIST;
      }
      status := BusNameStatus(bus.info);
      if status != 0 {
        return;
      }
      if OnBusLocation(bus.info.transport) && !env.registers {
        return ENODEV;
      }
      busIndex := busIndex[bus.handle := bus];
      locations := locations[bus.handle := map[]];
      buses := buses + [bus];
    }

    /** group_get_locked: one more reference, on a new group for a new base name. */
    method GetGroup(base: string)
      modifies this`groups
      ensures groups == GroupGet(old(groups), base) && base in groups
    {
      if base !in groups {
        groups := groups[base := Group(0, map[])];
      }
      groups := groups[base := groups[base].(refs := groups[base].refs + 1)];
    }

    /** group_put_locked: one reference less, and the group goes with the last. */
    method PutGroup(base: string)
      requires base in groups
      modifies this`groups
      ensures groups == GroupPut(old(groups), base)
    {
      if groups[base].refs > 0 {
        groups := groups[base := groups[base].(refs := groups[base].refs - 1)];
      }
      if groups[base].refs == 0 {
        groups := Erase(groups, base);
      }
    }

    method ClearPort(base: string, index: nat, handle: u32)
      requires base in groups
      modifies this`groups
      ensures groups == ClearSlot(old(groups), base, index, handle) && base in groups
    {
      if index in groups[base].ports && groups[base].ports[index] == handle {
        groups := groups[base := groups[base].(ports := Erase(groups[base].ports, index))];
      }
    }

    /** register_uart: takes a reference and a slot, and gives back what it took when a later step fails. */
    method RegisterPort(dev: Device, env: Env) returns (status: int)
      modifies this`groups
      ensures (groups, status) == RegisterUart(old(groups), dev, env)
    {
      hide GroupGet, GroupPut, ClearSlot, KernelParseTty;
      var p := KernelParseTty(dev.info.name);
      if p.Invalid? {
        return EINVAL;
      }
      if p.OutOfRange? {
        return ERANGE;
      }
      var base, index := p.base, p.index;
      if dev.info.location != index {
        return EINVAL;
      }
      GetGroup(base);
      if index >= env.portLimit {
        PutGroup(base);
        return ERANGE;
      }
      if index in groups[base].ports {
        PutGroup(base);
        return EEXIST;
      }
      groups := groups[base := groups[base].(ports := groups[base].ports[index := dev.handle])];
      if !env.registers {
        ClearPort(base, index, dev.handle);
        PutGroup(base);
        return ENODEV;
      }
      status := 0;
    }

    /** destroy_uart_device: the slot first, then the reference. */
    method DestroyPort(dev: Device)
      modifies this`groups
      ensures groups == UnregisterUart(old(groups), dev)
    {
      hide GroupPut, ClearSlot, KernelParseTty;
      var p := KernelParseTty(dev.info.name);
      if p.Parsed? && p.base in groups {
        ClearPort(p.base, p.index, dev.handle);
        PutGroup(p.base);
      }
    }

    method AddDevice(dev: Device, env: Env) returns (status: int)
      requires Inv(View())
      modifies this
      ensures Inv(View()) && (View(), status) == CmdDeviceAdd(old(View()), dev, env)
      ensures status != 0 ==> View() == old(View())
    {
      hide Inv, RegisterUart, SpiSettingsOk, UartNameTaken;
      AddDeviceFacts(View(), dev, env);
      var d := dev.info;
      if d.transport == Virtual {
        return EINVAL;
      }
      if dev.handle in deviceIndex {
        return EEXIST;
      }
      if d.bus !in busIndex || busIndex[d.bus].info.transport != d.transport {
        return ENOENT;
      }
      if OnBusLocation(d.transport) && d.bus in locations && d.location in locations[d.bus] {
        return EEXIST;
      }
      if d.transport == Uart {
        var taken := FindUartName(d.name);
        if taken {
          return EEXIST;
        }
      }
      if d.transport == Spi && !SpiSettingsOk(d.spi) {
        return EINVAL;
      }
      if d.transport == Spi && !env.registers {
        return ENODEV;
      }
      if d.transport == Uart {
        status := RegisterPort(dev, env);
        if status != 0 {
          return;
        }
      }
      deviceIndex := deviceIndex[dev.handle := dev];
      if OnBusLocation(d.transport) && d.bus in locations {
        locations := locations[d.bus := Put(locations[d.bus], d.location, dev.handle)];
      }
      devices := devices + [dev];
      status := 0;
    }

    method Destroy(dev: Device)
      modifies this
      ensures View() == DestroyDevice(old(View()), dev)
    {
      hide UnregisterUart, Unlink, Erase;
      if dev.info.transport == Uart {
        DestroyPort(dev);
      }
      if dev.info.bus in locations {
        locations := locations[dev.info.bus := Erase(locations[dev.info.bus], dev.info.location)];
      }
      deviceIndex := Erase(deviceIndex, dev.handle);
      devices := Unlink(devices, dev.handle);
    }

    method RemoveDevice(handle: u32) returns (status: int)
      requires Inv(View())
      modifies this
      ensures Inv(View()) && (View(), status) == CmdDeviceRemove(old(View()), handle)
    {
      hide Inv, DestroyDevice;
      if handle !in deviceIndex {
        return ENOENT;
      }
      DeviceRemoveKeepsInv(View(), handle);
      Destroy(deviceIndex[handle]);
      status := 0;
    }

    /** The loops of bus_remove and reset over the device list. */
    method DestroyListed(bus: Option<u32>)
      modifies this
      ensures View() == DestroyDevices(old(View()), old(devices), bus)
    {
      hide DestroyDevice, Doomed;
      var list := devices;
      var i := 0;
      assert list[0..] == list;
      while i < |list|
        invariant i <= |list|
        invariant DestroyDevices(View(), list[i..], bus) == DestroyDevices(old(View()), list, bus)
      {
        assert list[i..][1..] == list[i + 1..];
        if Doomed(list[i], bus) {
          Destroy(list[i]);
        }
        i := i + 1;
      }
    }

    method DestroyBusObject(handle: u32)
      modifies this
      ensures View() == DestroyBus(old(View()), handle)
    {
      locations := Erase(locations, handle);
      busIndex := Erase(busIndex, handle);
      buses := Unlink(buses, handle);
    }

    method RemoveBus(handle: u32) returns (status: int)
      requires Inv(View())
      modifies this
      ensures Inv(View()) && (View(), status) == CmdBusRemove(old(View()), handle)
    {
      hide Inv, DestroyDevices, DestroyBus;
      if handle !in busIndex {
        return ENOENT;
      }
      BusRemoveKeepsInv(View(), handle);
      DestroyListed(Some(handle));
      DestroyBusObject(handle);
      status := 0;
    }

    /** reset_locked: every device, then every bus; nothing is left. */
    method Reset()
      requires Inv(View())
      modifies this
      ensures View() == EmptyKernel() && Inv(View())
    {
      ResetEmptiesTheKernel(View());
      EmptyIsInv();
      hide Inv, DestroyDevices, DestroyBus;
      ghost var start := View();
      DestroyListed(None);
      ghost var k1 := View();
      var list := buses;
      var i := 0;
      assert list[0..] == list;
      while i < |list|
        invariant i <= |list|
        invariant DestroyBuses(View(), list[i..]) == DestroyBuses(k1, k1.buses)
      {
        assert list[i..][1..] == list[i + 1..];
        DestroyBusObject(list[i].handle);
        i := i + 1;
      }
      assert View() == CmdReset(start);
    }
  }
}
