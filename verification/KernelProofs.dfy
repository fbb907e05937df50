/** Every control command keeps the kernel inventory consistent, and a reset empties it. */
module KernelProofs {
  import opened Words
  import opened Names
  import opened KernelModel

  // ---- Lists and handle indexes ----

  lemma DistinctCons<T(!new)>(o: Object<T>, rest: seq<Object<T>>)
    ensures Distinct([o] + rest) <==> Distinct(rest) && forall p :: p in rest ==> p.handle != o.handle
  {
    var l := [o] + rest;
    assert forall i :: 0 <= i < |rest| ==> rest[i] == l[i + 1];
    if Distinct(l) {
      forall p | p in rest
        ensures p.handle != o.handle
      {
        var i :| 0 <= i < |rest| && rest[i] == p;
        assert l[0].handle != l[i + 1].handle;
      }
      forall i, j | 0 <= i < j < |rest|
        ensures rest[i].handle != rest[j].handle
      {
        assert l[i + 1].handle != l[j + 1].handle;
      }
    }
  }

  lemma {:induction false} UnlinkKeepsDistinct<T(!new)>(list: seq<Object<T>>, h: u32)
    requires Distinct(list)
    ensures Distinct(Unlink(list, h))
  {
    if list != [] {
      assert list == [list[0]] + list[1..];
      DistinctCons(list[0], list[1..]);
      UnlinkKeepsDistinct(list[1..], h);
      DistinctCons(list[0], Unlink(list[1..], h));
    }
  }

  lemma ListIsUnlink<T(!new)>(list: seq<Object<T>>, index: map<u32, Object<T>>, h: u32)
    requires ListIs(list, index)
    ensures ListIs(Unlink(list, h), Erase(index, h))
  {
    UnlinkKeepsDistinct(list, h);
  }

  lemma ListIsAppend<T(!new)>(list: seq<Object<T>>, index: map<u32, Object<T>>, o: Object<T>)
    requires ListIs(list, index) && o.handle !in index
    ensures ListIs(list + [o], index[o.handle := o])
  {
    var l, m := list + [o], index[o.handle := o];
    forall h | h in m
      ensures m[h].handle == h && m[h] in l
    {
    }
    forall i, j | 0 <= i < j < |l|
      ensures l[i].handle != l[j].handle
    {
      assert l[i] in list;
    }
  }

  lemma ListedIsIndexed<T(!new)>(list: seq<Object<T>>, index: map<u32, Object<T>>)
    requires ListIs(list, index)
    ensures list != [] ==> exists h :: h in index
  {
    if list != [] {
      assert list[0].handle in index;
    }
  }

  // ---- UART groups ----

  lemma EraseCard<K, V>(m: map<K, V>, k: K)
    requires k in m
    ensures |Erase(m, k)| == |m| - 1
  {
    assert Erase(m, k).Keys == m.Keys - {k};
  }

  lemma GetPut(groups: map<string, Group>, base: string)
    requires base in groups ==> groups[base].refs > 0
    ensures base in GroupGet(groups, base) && GroupPut(GroupGet(groups, base), base) == groups
  {
  }

  lemma SetClear(groups: map<string, Group>, base: string, index: nat, h: u32)
    requires base in groups && index !in groups[base].ports
    ensures base in SetSlot(groups, base, index, h)
    ensures ClearSlot(SetSlot(groups, base, index, h), base, index, h) == groups
  {
    assert Erase(groups[base].ports[index := h], index) == groups[base].ports;
  }

  /** A failed registration gives back exactly what it took. */
  lemma FailedRegistrationRestores(groups: map<string, Group>, dev: Device, env: Env)
    requires RefsOk(groups) && RegisterUart(groups, dev, env).1 != 0
    ensures RegisterUart(groups, dev, env).0 == groups
  {
    hide GroupPut, GroupGet, SetSlot, ClearSlot, KernelParseTty;
    match KernelParseTty(dev.info.name)
    case Invalid =>
    case OutOfRange =>
    case Parsed(base, index) =>
      GetPut(groups, base);
      if index !in GroupGet(groups, base)[base].ports {
        SetClear(GroupGet(groups, base), base, index, dev.handle);
      }
  }

  function PortsOf(groups: map<string, Group>, base: string): map<nat, u32> {
    if base in groups then groups[base].ports else map[]
  }

  /** What a successful registration does: one slot and one reference more. */
  lemma RegistrationEffect(groups: map<string, Group>, dev: Device, env: Env)
    requires RefsOk(groups) && RegisterUart(groups, dev, env).1 == 0
    ensures
      var p := KernelParseTty(dev.info.name);
      && p.Parsed? && p.index !in PortsOf(groups, p.base)
      && RegisterUart(groups, dev, env).0
         == WithSlot(groups, p.base, p.index, dev.handle)
  {
    hide KernelParseTty, GroupPut, ClearSlot;
  }

  function WithSlot(groups: map<string, Group>, base: string, index: nat, h: u32): map<string, Group> {
    groups[base := Group(|PortsOf(groups, base)| + 1, PortsOf(groups, base)[index := h])]
  }

  lemma WithSlotKeepsDevices(deviceIndex: map<u32, Device>, groups: map<string, Group>,
                             dev: Device, base: string, index: nat)
    requires DevicesHaveSlots(deviceIndex, groups) && KernelParseTty(dev.info.name) == Parsed(base, index)
    requires index !in PortsOf(groups, base) && dev.handle !in deviceIndex
    ensures DevicesHaveSlots(deviceIndex[dev.handle := dev], WithSlot(groups, base, index, dev.handle))
  {
    hide KernelParseTty;
  }

  lemma WithSlotKeepsSlots(deviceIndex: map<u32, Device>, groups: map<string, Group>,
                           dev: Device, base: string, index: nat)
    requires SlotsHaveDevices(deviceIndex, groups) && HasPort(dev.info, base, index)
    requires index !in PortsOf(groups, base) && dev.handle !in deviceIndex
    ensures SlotsHaveDevices(deviceIndex[dev.handle := dev], WithSlot(groups, base, index, dev.handle))
  {
    hide HasPort;
  }

  lemma WithSlotKeepsRefs(groups: map<string, Group>, base: string, index: nat, h: u32)
    requires RefsOk(groups) && index !in PortsOf(groups, base)
    ensures RefsOk(WithSlot(groups, base, index, h))
  {
    var ports := PortsOf(groups, base);
    assert ports[index := h].Keys == ports.Keys + {index};
  }

  lemma RegistrationKeepsGroups(deviceIndex: map<u32, Device>, groups: map<string, Group>, dev: Device, env: Env)
    requires GroupsOk(deviceIndex, groups) && dev.handle !in deviceIndex && dev.info.transport == Uart
    requires RegisterUart(groups, dev, env).1 == 0
    ensures GroupsOk(deviceIndex[dev.handle := dev], RegisterUart(groups, dev, env).0)
  {
    RegistrationEffect(groups, dev, env);
    hide KernelParseTty, RegisterUart, DevicesHaveSlots, SlotsHaveDevices, RefsOk;
    var p := KernelParseTty(dev.info.name);
    WithSlotKeepsDevices(deviceIndex, groups, dev, p.base, p.index);
    WithSlotKeepsSlots(deviceIndex, groups, dev, p.base, p.index);
    WithSlotKeepsRefs(groups, p.base, p.index, dev.handle);
  }

  function WithoutSlot(groups: map<string, Group>, base: string, index: nat): map<string, Group>
    requires base in groups
  {
    var rest := Erase(groups[base].ports, index);
    if |rest| == 0 then Erase(groups, base) else groups[base := Group(|rest|, rest)]
  }

  /** What an unregistration does: one slot and one reference less, the group with its last. */
  lemma UnregistrationEffect(groups: map<string, Group>, dev: Device, base: string, index: nat)
    requires RefsOk(groups) && KernelParseTty(dev.info.name) == Parsed(base, index)
    requires base in groups && index in groups[base].ports && groups[base].ports[index] == dev.handle
    ensures UnregisterUart(groups, dev) == WithoutSlot(groups, base, index)
  {
    hide KernelParseTty;
    EraseCard(groups[base].ports, index);
    var rest := Erase(groups[base].ports, index);
    assert ClearSlot(groups, base, index, dev.handle) == groups[base := groups[base].(ports := rest)];
    if |rest| == 0 {
      assert Erase(groups[base := groups[base].(ports := rest)], base) == Erase(groups, base);
    }
  }

  lemma NoKeys<K, V>(m: map<K, V>, k: K)
    requires |m| == 0
    ensures k !in m
  {
  }

  lemma WithoutSlotKeepsDevices(deviceIndex: map<u32, Device>, groups: map<string, Group>,
                                dev: Device, base: string, index: nat)
    requires DevicesHaveSlots(deviceIndex, groups) && KernelParseTty(dev.info.name) == Parsed(base, index)
    requires base in groups && index in groups[base].ports && groups[base].ports[index] == dev.handle
    ensures DevicesHaveSlots(Erase(deviceIndex, dev.handle), WithoutSlot(groups, base, index))
  {
    hide KernelParseTty;
    var rest := Erase(groups[base].ports, index);
    if |rest| == 0 {
      forall i | i in groups[base].ports
        ensures i == index
      {
        NoKeys(rest, i);
      }
    }
  }

  lemma WithoutSlotKeepsSlots(deviceIndex: map<u32, Device>, groups: map<string, Group>,
                              dev: Device, base: string, index: nat)
    requires SlotsHaveDevices(deviceIndex, groups) && HasPort(dev.info, base, index)
    requires dev.handle in deviceIndex && deviceIndex[dev.handle] == dev
    requires base in groups && index in groups[base].ports && groups[base].ports[index] == dev.handle
    ensures SlotsHaveDevices(Erase(deviceIndex, dev.handle), WithoutSlot(groups, base, index))
  {
    var groups' := WithoutSlot(groups, base, index);
    assert KernelParseTty(dev.info.name) == Parsed(base, index);
    hide KernelParseTty;
    forall b, i | b in groups' && i in groups'[b].ports
      ensures groups'[b].ports[i] in Erase(deviceIndex, dev.handle)
      ensures HasPort(Erase(deviceIndex, dev.handle)[groups'[b].ports[i]].info, b, i)
    {
      var h := groups[b].ports[i];
      assert groups'[b].ports[i] == h && (b != base || i != index);
      assert h in deviceIndex && HasPort(deviceIndex[h].info, b, i);
    }
  }

  lemma UnregistrationKeepsGroups(deviceIndex: map<u32, Device>, groups: map<string, Group>, dev: Device)
    requires GroupsOk(deviceIndex, groups)
    requires dev.handle in deviceIndex && deviceIndex[dev.handle] == dev && dev.info.transport == Uart
    ensures GroupsOk(Erase(deviceIndex, dev.handle), UnregisterUart(groups, dev))
  {
    hide KernelParseTty, UnregisterUart;
    var p := KernelParseTty(dev.info.name);
    assert p.base in groups && groups[p.base].ports[p.index] == dev.handle;
    UnregistrationEffect(groups, dev, p.base, p.index);
    assert RefsOk(WithoutSlot(groups, p.base, p.index));
    hide DevicesHaveSlots, SlotsHaveDevices, RefsOk, WithoutSlot;
    WithoutSlotKeepsDevices(deviceIndex, groups, dev, p.base, p.index);
    WithoutSlotKeepsSlots(deviceIndex, groups, dev, p.base, p.index);
  }

  lemma OtherDevicesKeepGroups(deviceIndex: map<u32, Device>, groups: map<string, Group>, dev: Device)
    requires GroupsOk(deviceIndex, groups) && dev.info.transport != Uart
    ensures dev.handle !in deviceIndex ==> GroupsOk(deviceIndex[dev.handle := dev], groups)
    ensures dev.handle in deviceIndex && deviceIndex[dev.handle] == dev
            ==> GroupsOk(Erase(deviceIndex, dev.handle), groups)
  {
    hide KernelParseTty;
  }

  // ---- Commands ----

  lemma BusAddKeepsInv(k: Kernel, bus: Bus, env: Env)
    requires Inv(k)
    ensures Inv(CmdBusAdd(k, bus, env).0)
  {
    hide GroupsOk, ListIs, BusNameStatus;
    if bus.handle !in k.busIndex {
      ListIsAppend(k.buses, k.busIndex, bus);
    }
  }

  lemma InsertKeepsInv(k: Kernel, dev: Device, groups: map<string, Group>)
    requires Inv(k) && DeviceStatus(k, dev) == 0
    requires GroupsOk(k.deviceIndex[dev.handle := dev], groups)
    ensures Inv(Insert(k, dev, groups))
  {
    hide GroupsOk, ListIs, UartNameTaken, SpiSettingsOk;
    ListIsAppend(k.devices, k.deviceIndex, dev);
    InsertKeepsLocations(k, dev, groups);
    hide LocationsOk;
  }

  lemma InsertKeepsLocations(k: Kernel, dev: Device, groups: map<string, Group>)
    requires LocationsOk(k) && DeviceStatus(k, dev) == 0
    ensures LocationsOk(Insert(k, dev, groups))
  {
    hide UartNameTaken, SpiSettingsOk;
  }

  lemma DeviceAddKeepsInv(k: Kernel, dev: Device, env: Env)
    requires Inv(k)
    ensures Inv(CmdDeviceAdd(k, dev, env).0)
  {
    hide ListIs, BusesOk, LocationsOk, DevicesHaveSlots, SlotsHaveDevices, RefsOk, RegisterUart, UartNameTaken;
    if DeviceStatus(k, dev) == 0 {
      if dev.info.transport == Uart {
        var (groups, status) := RegisterUart(k.groups, dev, env);
        if status == 0 {
          RegistrationKeepsGroups(k.deviceIndex, k.groups, dev, env);
          InsertKeepsInv(k, dev, groups);
        } else {
          FailedRegistrationRestores(k.groups, dev, env);
          assert k.(groups := groups) == k;
        }
      } else {
        OtherDevicesKeepGroups(k.deviceIndex, k.groups, dev);
        InsertKeepsInv(k, dev, k.groups);
      }
    }
  }

  /** A rejected command changes nothing at all, references and slots included. */
  lemma RejectedCommandChangesNothing(k: Kernel, c: Command, env: Env)
    requires Inv(k) && Execute(k, c, env).1 != 0
    ensures Execute(k, c, env).0 == k
  {
    if c.DeviceAdd? && DeviceStatus(k, c.dev) == 0 && c.dev.info.transport == Uart {
      FailedRegistrationRestores(k.groups, c.dev, env);
    }
    hide ListIs, BusesOk, LocationsOk, GroupsOk, RegisterUart, UartNameTaken;
  }

  lemma DestroyKeepsLocations(k: Kernel, dev: Device)
    requires BusesOk(k) && LocationsOk(k)
    requires dev.handle in k.deviceIndex && k.deviceIndex[dev.handle] == dev
    ensures LocationsOk(DestroyDevice(k, dev))
  {
    hide UnregisterUart, Unlink;
    var d := dev.info;
    var k' := DestroyDevice(k, dev);
    forall h | h in k'.deviceIndex && OnBusLocation(k'.deviceIndex[h].info.transport)
      ensures
        var e := k'.deviceIndex[h].info;
        e.bus in k'.locations && e.location in k'.locations[e.bus] && k'.locations[e.bus][e.location] == h
    {
      var e := k.deviceIndex[h].info;
      assert k.locations[e.bus][e.location] == h;
    }
    forall b, loc | b in k'.locations && loc in k'.locations[b]
      ensures LocatedAt(k', k'.locations[b][loc], b, loc)
    {
      assert LocatedAt(k, k.locations[b][loc], b, loc);
    }
  }

  lemma DestroyDeviceKeepsInv(k: Kernel, dev: Device)
    requires Inv(k) && dev.handle in k.deviceIndex && k.deviceIndex[dev.handle] == dev
    ensures Inv(DestroyDevice(k, dev))
  {
    DestroyKeepsLocations(k, dev);
    hide GroupsOk, ListIs, LocationsOk, UnregisterUart, Unlink;
    ListIsUnlink(k.devices, k.deviceIndex, dev.handle);
    if dev.info.transport == Uart {
      UnregistrationKeepsGroups(k.deviceIndex, k.groups, dev);
    } else {
      OtherDevicesKeepGroups(k.deviceIndex, k.groups, dev);
    }
  }

  /** The devices outside the snapshot, or not doomed. */
  function Survivors(deviceIndex: map<u32, Device>, list: seq<Device>, bus: Option<u32>): map<u32, Device> {
    map h | h in deviceIndex && !(deviceIndex[h] in list && Doomed(deviceIndex[h], bus)) :: deviceIndex[h]
  }

  lemma SurvivorsStep(deviceIndex: map<u32, Device>, o: Device, rest: seq<Device>, bus: Option<u32>)
    requires forall h :: h in deviceIndex ==> deviceIndex[h].handle == h
    requires o.handle in deviceIndex && deviceIndex[o.handle] == o
    ensures Survivors(deviceIndex, [o] + rest, bus)
         == Survivors(if Doomed(o, bus) then Erase(deviceIndex, o.handle) else deviceIndex, rest, bus)
  {
    hide Doomed;
    assert forall d :: d in [o] + rest <==> d == o || d in rest;
  }

  /** The objects of the list are the ones the index holds. */
  ghost predicate Registered(deviceIndex: map<u32, Device>, list: seq<Device>) {
    forall o :: o in list ==> o.handle in deviceIndex && deviceIndex[o.handle] == o
  }

  lemma RegisteredTail(deviceIndex: map<u32, Device>, o: Device, rest: seq<Device>)
    requires Registered(deviceIndex, [o] + rest) && Distinct([o] + rest)
    ensures o.handle in deviceIndex && deviceIndex[o.handle] == o && Distinct(rest)
    ensures Registered(deviceIndex, rest) && Registered(Erase(deviceIndex, o.handle), rest)
  {
    DistinctCons(o, rest);
    assert o in [o] + rest;
    assert forall p :: p in rest ==> p in [o] + rest;
    hide Distinct;
  }

  /** Walking a snapshot of the list destroys exactly the doomed devices of the snapshot. */
  lemma {:induction false} DestroyDevicesKeepsInv(k: Kernel, list: seq<Device>, bus: Option<u32>)
    requires Inv(k) && Registered(k.deviceIndex, list) && Distinct(list)
    ensures
      var k' := DestroyDevices(k, list, bus);
      && Inv(k') && k'.buses == k.buses && k'.busIndex == k.busIndex
      && k'.deviceIndex == Survivors(k.deviceIndex, list, bus)
    decreases |list|
  {
    if list == [] {
      return;
    }
    hide Distinct, DestroyDevice, Survivors, Doomed, Registered;
    DevicesMatchIndex(k);
    hide Inv;
    var o, rest := list[0], list[1..];
    assert list == [o] + rest;
    RegisteredTail(k.deviceIndex, o, rest);
    SurvivorsStep(k.deviceIndex, o, rest, bus);
    if Doomed(o, bus) {
      DestroyDeviceKeepsInv(k, o);
      DestroyFrame(k, o);
      DestroyDevicesKeepsInv(DestroyDevice(k, o), rest, bus);
    } else {
      DestroyDevicesKeepsInv(k, rest, bus);
    }
  }

  lemma DestroyFrame(k: Kernel, dev: Device)
    ensures
      var k' := DestroyDevice(k, dev);
      && k'.buses == k.buses && k'.busIndex == k.busIndex
      && k'.deviceIndex == Erase(k.deviceIndex, dev.handle)
  {
  }

  lemma DestroyBusKeepsInv(k: Kernel, handle: u32)
    requires Inv(k)
    requires forall h :: h in k.deviceIndex ==> k.deviceIndex[h].info.bus != handle
    ensures Inv(DestroyBus(k, handle))
  {
    hide GroupsOk, ListIs;
    ListIsUnlink(k.buses, k.busIndex, handle);
  }

  lemma DevicesMatchIndex(k: Kernel)
    requires ListIs(k.devices, k.deviceIndex)
    ensures Registered(k.deviceIndex, k.devices) && Distinct(k.devices)
    ensures forall h :: h in k.deviceIndex ==> k.deviceIndex[h] in k.devices && k.deviceIndex[h].handle == h
  {
  }

  /** Removing a bus removes it and its devices, and no other device. */
  lemma BusRemoveKeepsInv(k: Kernel, handle: u32)
    requires Inv(k) && handle in k.busIndex
    ensures
      var k' := CmdBusRemove(k, handle).0;
      && Inv(k') && k'.busIndex == Erase(k.busIndex, handle)
      && k'.deviceIndex == map h | h in k.deviceIndex && k.deviceIndex[h].info.bus != handle :: k.deviceIndex[h]
  {
    hide GroupsOk, BusesOk, LocationsOk, ListIs;
    DevicesMatchIndex(k);
    DestroyDevicesKeepsInv(k, k.devices, Some(handle));
    DestroyBusKeepsInv(DestroyDevices(k, k.devices, Some(handle)), handle);
  }

  lemma {:induction false} DestroyBusesKeepsInv(k: Kernel, list: seq<Bus>)
    requires Inv(k) && k.deviceIndex == map[]
    ensures
      var k' := DestroyBuses(k, list);
      && Inv(k') && k'.deviceIndex == map[]
      && (forall h :: h in k'.busIndex <==> h in k.busIndex && forall o :: o in list ==> o.handle != h)
    decreases |list|
  {
    hide Inv;
    if list != [] {
      DestroyBusKeepsInv(k, list[0].handle);
      DestroyBusesKeepsInv(DestroyBus(k, list[0].handle), list[1..]);
      assert forall o :: o in list <==> o == list[0] || o in list[1..];
    }
  }

  /** A consistent inventory without devices or buses is the empty one. */
  lemma NothingLeft(k: Kernel)
    requires Inv(k) && k.deviceIndex == map[] && k.busIndex == map[]
    ensures k == EmptyKernel()
  {
    hide KernelParseTty;
    ListedIsIndexed(k.devices, k.deviceIndex);
    ListedIsIndexed(k.buses, k.busIndex);
    GroupsNeedDevices(k.deviceIndex, k.groups);
  }

  lemma GroupsNeedDevices(deviceIndex: map<u32, Device>, groups: map<string, Group>)
    requires SlotsHaveDevices(deviceIndex, groups) && RefsOk(groups)
    ensures groups != map[] ==> exists h :: h in deviceIndex
  {
    if groups != map[] {
      var b :| b in groups;
      HasKey(groups[b].ports);
      var i :| i in groups[b].ports;
      assert groups[b].ports[i] in deviceIndex;
    }
  }

  lemma HasKey<K, V>(m: map<K, V>)
    requires |m| > 0
    ensures exists k :: k in m
  {
    assert m.Keys != {};
  }

  /** A reset leaves nothing: no device, bus, location, group or reference. */
  lemma ResetEmptiesTheKernel(k: Kernel)
    requires Inv(k)
    ensures CmdReset(k) == EmptyKernel()
  {
    hide GroupsOk, BusesOk, LocationsOk;
    DevicesMatchIndex(k);
    DestroyDevicesKeepsInv(k, k.devices, None);
    var k1 := DestroyDevices(k, k.devices, None);
    assert k1.deviceIndex == map[];
    DestroyBusesKeepsInv(k1, k1.buses);
    assert CmdReset(k).busIndex == map[];
    NothingLeft(CmdReset(k));
  }

  lemma ExecuteKeepsInv(k: Kernel, c: Command, env: Env)
    requires Inv(k)
    ensures Inv(Execute(k, c, env).0)
  {
    hide ListIs, BusesOk, LocationsOk, GroupsOk;
    match c
    case BusAdd(bus) => BusAddKeepsInv(k, bus, env);
    case BusRemove(handle) => if handle in k.busIndex { BusRemoveKeepsInv(k, handle); }
    case DeviceAdd(dev) => DeviceAddKeepsInv(k, dev, env);
    case DeviceRemove(handle) =>
      if handle in k.deviceIndex {
        DeviceRemoveKeepsInv(k, handle);
      }
    case ResetAll =>
      ResetEmptiesTheKernel(k);
      EmptyIsInv();
  }

  lemma DeviceRemoveKeepsInv(k: Kernel, handle: u32)
    requires Inv(k) && handle in k.deviceIndex
    ensures Inv(DestroyDevice(k, k.deviceIndex[handle]))
  {
    DevicesMatchIndex(k);
    DestroyDeviceKeepsInv(k, k.deviceIndex[handle]);
  }

  lemma EmptyIsInv()
    ensures Inv(EmptyKernel())
  {
  }

  /** Whatever the sequence of control commands, accepted or refused, the inventory is consistent. */
  lemma {:induction false} EveryRunKeepsInv(k: Kernel, cs: seq<(Command, Env)>)
    requires Inv(k)
    ensures Inv(ExecuteAll(k, cs))
    decreases |cs|
  {
    hide Inv, Execute;
    if cs != [] {
      ExecuteKeepsInv(k, cs[0].0, cs[0].1);
      EveryRunKeepsInv(Execute(k, cs[0].0, cs[0].1).0, cs[1..]);
    }
  }

  // ---- The lists determine everything else ----

  lemma IndexIsDetermined<T(!new)>(list: seq<Object<T>>, m: map<u32, Object<T>>, m': map<u32, Object<T>>)
    requires ListIs(list, m) && ListIs(list, m')
    ensures m == m'
  {
    forall h
      ensures h in m <==> h in m'
      ensures h in m && h in m' ==> m[h] == m'[h]
    {
      if h in m {
        assert m[h] in list && m[h].handle == h;
      }
      if h in m' {
        assert m'[h] in list && m'[h].handle == h;
      }
    }
  }

  lemma LocationsAreIncluded(k: Kernel, k': Kernel, b: u32)
    requires LocationsOk(k) && LocationsOk(k') && k.deviceIndex == k'.deviceIndex
    requires b in k.locations && b in k'.locations
    ensures forall loc :: loc in k.locations[b] ==>
      loc in k'.locations[b] && k'.locations[b][loc] == k.locations[b][loc]
  {
    forall loc | loc in k.locations[b]
      ensures loc in k'.locations[b] && k'.locations[b][loc] == k.locations[b][loc]
    {
      assert LocatedAt(k, k.locations[b][loc], b, loc);
    }
  }

  lemma LocationsAreDetermined(k: Kernel, k': Kernel)
    requires LocationsOk(k) && LocationsOk(k')
    requires k.deviceIndex == k'.deviceIndex && k.busIndex == k'.busIndex
    ensures k.locations == k'.locations
  {
    forall b | b in k.locations
      ensures b in k'.locations && k.locations[b] == k'.locations[b]
    {
      assert b in k'.locations.Keys;
      LocationsAreIncluded(k, k', b);
      LocationsAreIncluded(k', k, b);
    }
    assert k.locations.Keys == k'.locations.Keys;
  }

  lemma PortsAreIncluded(index: map<u32, Device>, groups: map<string, Group>, groups': map<string, Group>, b: string)
    requires GroupsOk(index, groups) && GroupsOk(index, groups') && b in groups
    ensures b in groups'
    ensures forall i :: i in groups[b].ports ==> i in groups'[b].ports && groups'[b].ports[i] == groups[b].ports[i]
  {
    assert groups[b].refs > 0;
    var i :| i in groups[b].ports;
    assert HasPort(index[groups[b].ports[i]].info, b, i);
    forall i | i in groups[b].ports
      ensures i in groups'[b].ports && groups'[b].ports[i] == groups[b].ports[i]
    {
      assert HasPort(index[groups[b].ports[i]].info, b, i);
    }
  }

  lemma GroupIsDetermined(index: map<u32, Device>, groups: map<string, Group>, groups': map<string, Group>, b: string)
    requires GroupsOk(index, groups) && GroupsOk(index, groups') && b in groups
    ensures b in groups' && groups[b] == groups'[b]
  {
    hide DevicesHaveSlots, SlotsHaveDevices;
    PortsAreIncluded(index, groups, groups', b);
    PortsAreIncluded(index, groups', groups, b);
    assert groups[b].ports == groups'[b].ports;
  }

  lemma GroupsAreDetermined(index: map<u32, Device>, groups: map<string, Group>, groups': map<string, Group>)
    requires GroupsOk(index, groups) && GroupsOk(index, groups')
    ensures groups == groups'
  {
    hide GroupsOk;
    forall b
      ensures b in groups ==> b in groups' && groups[b] == groups'[b]
      ensures b in groups' ==> b in groups
    {
      if b in groups {
        GroupIsDetermined(index, groups, groups', b);
      }
      if b in groups' {
        GroupIsDetermined(index, groups', groups, b);
      }
    }
  }

  /** Two consistent kernels with the same bus and device lists are the same kernel. */
  lemma {:induction false} ListsDetermineTheKernel(k: Kernel, k': Kernel)
    requires Inv(k) && Inv(k') && k.buses == k'.buses && k.devices == k'.devices
    ensures k == k'
  {
    hide ListIs, BusesOk, LocationsOk, GroupsOk;
    IndexIsDetermined(k.buses, k.busIndex, k'.busIndex);
    IndexIsDetermined(k.devices, k.deviceIndex, k'.deviceIndex);
    LocationsAreDetermined(k, k');
    GroupsAreDetermined(k.deviceIndex, k.groups, k'.groups);
  }
}
