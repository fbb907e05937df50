/**
 The daemon's inventory and its transactions against the kernel: apply with rollback, reset, resync,
 and the edits between them, while any bridge write may fail.
 */
module Daemon {
  import opened Words
  import opened Names
  import opened KernelModel
  import opened KernelProofs
  import opened RuntimeModel
  import opened Replay

  datatype State = Empty | Applying | Ready | Desynced

  datatype StoredBus = StoredBus(bus: ModelBus, handle: nat)
  datatype StoredDevice = StoredDevice(dev: ModelDevice, handle: nat, busHandle: nat, attached: Option<string>)

  function BusesOf(bs: seq<StoredBus>): (r: seq<ModelBus>)
    ensures |r| == |bs| && forall i :: 0 <= i < |bs| ==> r[i] == bs[i].bus
  {
    seq(|bs|, i requires 0 <= i < |bs| => bs[i].bus)
  }

  function DevicesOf(ds: seq<StoredDevice>): (r: seq<ModelDevice>)
    ensures |r| == |ds| && forall i :: 0 <= i < |ds| ==> r[i] == ds[i].dev
  {
    seq(|ds|, i requires 0 <= i < |ds| => ds[i].dev)
  }

  /** Handles are handed out in order, and the handle index is the exact inverse of the devices. */
  ghost predicate HandlesOk(buses: seq<StoredBus>, devices: seq<StoredDevice>, byHandle: map<nat, string>) {
    && (forall i :: 0 <= i < |buses| ==> buses[i].handle == FIRST_BUS + i)
    && (forall i :: 0 <= i < |devices| ==>
          && devices[i].handle == FIRST_DEVICE + i
          && devices[i].busHandle == BusHandle(BusesOf(buses), devices[i].dev.bus)
          && devices[i].handle in byHandle && byHandle[devices[i].handle] == devices[i].dev.id)
    && (forall h :: h in byHandle ==> FIRST_DEVICE <= h < FIRST_DEVICE + |devices|)
  }

  /** The kernel holds exactly the daemon's buses and devices, in order, under the daemon's handles. */
  ghost predicate Agrees(k: Kernel, buses: seq<StoredBus>, devices: seq<StoredDevice>) {
    MirrorsBuses(k, BusesOf(buses)) && MirrorsDevices(k, BusesOf(buses), DevicesOf(devices))
  }

  /** Agreement is equality: at most one consistent kernel agrees with an inventory of the daemon. */
  lemma AgreementDeterminesTheKernel(k: Kernel, k': Kernel, buses: seq<StoredBus>, devices: seq<StoredDevice>)
    requires Inv(k) && Inv(k') && Agrees(k, buses, devices) && Agrees(k', buses, devices)
    ensures k == k'
  {
    hide Inv, KBus, KDevice, Location, BusHandle;
    assert k.buses == k'.buses;
    assert k.devices == k'.devices;
    ListsDetermineTheKernel(k, k');
  }

  // ---- What the world answers ----

  function Next(answers: seq<bool>): bool {
    answers == [] || answers[0]
  }

  function Rest(answers: seq<bool>): seq<bool> {
    if answers == [] then [] else answers[1..]
  }

  /** How many requests the answers refuse. */
  function Failures(answers: seq<bool>): nat {
    if answers == [] then 0 else (if answers[0] then 0 else 1) + Failures(answers[1..])
  }

  /** The kernel can hold the inventory: names, numbers and counts are within its limits. */
  ghost predicate Held(mb: seq<ModelBus>, md: seq<ModelDevice>, portLimit: nat) {
    && FIRST_BUS + |mb| <= U32 && FIRST_DEVICE + |md| <= U32
    && (forall i :: 0 <= i < |mb| ==> BusWithinLimits(mb[i]))
    && (forall i :: 0 <= i < |md| ==> DeviceWithinLimits(md[i], Env(portLimit, true)))
  }

  lemma NothingIsHeld(portLimit: nat)
    ensures Held([], [], portLimit)
  {
  }

  lemma HeldBus(mb: seq<ModelBus>, b: ModelBus, portLimit: nat)
    requires Held(mb, [], portLimit) && BusWithinLimits(b) && FIRST_BUS + |mb| < U32
    ensures Held(mb + [b], [], portLimit)
  {
    hide BusWithinLimits;
  }

  lemma HeldDevice(mb: seq<ModelBus>, md: seq<ModelDevice>, d: ModelDevice, portLimit: nat)
    requires Held(mb, md, portLimit) && DeviceWithinLimits(d, Env(portLimit, true)) && FIRST_DEVICE + |md| < U32
    ensures Held(mb, md + [d], portLimit)
  {
    hide BusWithinLimits, DeviceWithinLimits;
  }

  lemma HeldItems(mb: seq<ModelBus>, md: seq<ModelDevice>, portLimit: nat)
    requires Held(mb, md, portLimit)
    ensures forall i :: 0 <= i < |mb| ==> BusWithinLimits(mb[i]) && FIRST_BUS + i < U32
    ensures forall i :: 0 <= i < |md| ==> DeviceWithinLimits(md[i], Env(portLimit, true)) && FIRST_DEVICE + i < U32
  {
    hide BusWithinLimits, DeviceWithinLimits;
  }

  /** The limits do not look at backends. */
  lemma HeldIgnoresBackends(mb: seq<ModelBus>, md: seq<ModelDevice>, md': seq<ModelDevice>, portLimit: nat)
    requires Held(mb, md, portLimit) && |md| == |md'|
    requires forall i :: 0 <= i < |md| ==> md'[i] == md[i].(backend := md'[i].backend)
    ensures Held(mb, md', portLimit)
  {
    hide BusWithinLimits, KernelParseTty;
  }

  /** An external backend may serve a controller that no managed worker serves. */
  predicate Attachable(d: ModelDevice) {
    d.backend == Controller(false)
  }

  /** A UART template has modem defaults, which the daemon sends to the kernel. */
  predicate SendsDefaults(d: ModelDevice) {
    d.place.Port? && d.backend.Template?
  }

  // ---- Attachments ----

  type Attachments = map<string, seq<string>>

  /** The attachments of a snapshot: the ids of each backend that serves any device. */
  ghost predicate IsSnapshotOf(atts: Attachments, devices: seq<StoredDevice>) {
    && (forall i :: 0 <= i < |devices| && devices[i].attached.Some? ==>
          devices[i].attached.value in atts && devices[i].dev.id in atts[devices[i].attached.value])
    && (forall b, id :: b in atts && id in atts[b] ==>
          exists i :: 0 <= i < |devices| && devices[i].dev.id == id && devices[i].attached == Some(b))
  }

  ghost predicate AllAttachable(devices: seq<StoredDevice>) {
    forall i :: 0 <= i < |devices| && devices[i].attached.Some? ==> Attachable(devices[i].dev)
  }

  ghost predicate DistinctIds(devices: seq<StoredDevice>) {
    forall i, j :: 0 <= i < j < |devices| ==> devices[i].dev.id != devices[j].dev.id
  }

  /** Some device of that id may serve an external backend. */
  ghost predicate Serves(devices: seq<StoredDevice>, id: string) {
    exists i :: 0 <= i < |devices| && devices[i].dev.id == id && Attachable(devices[i].dev)
  }

  /** The devices with the listed ids attached to the backend, the others as they were. */
  function AttachedTo(devices: seq<StoredDevice>, backend: string, ids: seq<string>): (r: seq<StoredDevice>)
    ensures |r| == |devices|
  {
    seq(|devices|, i requires 0 <= i < |devices| =>
      if devices[i].dev.id in ids then devices[i].(attached := Some(backend)) else devices[i])
  }

  function Detached(devices: seq<StoredDevice>): (r: seq<StoredDevice>)
    ensures |r| == |devices|
  {
    seq(|devices|, i requires 0 <= i < |devices| => devices[i].(attached := None))
  }

  /** The devices with only the attachments to backends outside the set. */
  function PartlyAttached(devices: seq<StoredDevice>, todo: set<string>): (r: seq<StoredDevice>)
    ensures |r| == |devices|
  {
    seq(|devices|, i requires 0 <= i < |devices| =>
      if devices[i].attached.Some? && devices[i].attached.value in todo then devices[i].(attached := None)
      else devices[i])
  }

  lemma NotServed(devices: seq<StoredDevice>, id: string, r: Option<nat>)
    requires DistinctIds(devices)
    requires r.Some? ==> r.value < |devices| && devices[r.value].dev.id == id && !Attachable(devices[r.value].dev)
    requires r.None? ==> forall i :: 0 <= i < |devices| ==> devices[i].dev.id != id
    ensures !Serves(devices, id)
  {
    hide Attachable;
  }

  lemma SnapshotGrows(atts: Attachments, before: seq<StoredDevice>, d: StoredDevice, atts': Attachments)
    requires IsSnapshotOf(atts, before) && d.attached.Some?
    requires
      var b := d.attached.value;
      atts' == atts[b := (if b in atts then atts[b] else []) + [d.dev.id]]
    ensures IsSnapshotOf(atts', before + [d])
  {
    var all := before + [d];
    assert all[|before|] == d;
    forall b, id | b in atts' && id in atts'[b]
      ensures exists i :: 0 <= i < |all| && all[i].dev.id == id && all[i].attached == Some(b)
    {
      if b in atts && id in atts[b] {
        var i :| 0 <= i < |before| && before[i].dev.id == id && before[i].attached == Some(b);
        assert all[i] == before[i];
      }
    }
  }

  lemma SnapshotSkips(atts: Attachments, before: seq<StoredDevice>, d: StoredDevice)
    requires IsSnapshotOf(atts, before) && d.attached.None?
    ensures IsSnapshotOf(atts, before + [d])
  {
    var all := before + [d];
    forall b, id | b in atts && id in atts[b]
      ensures exists i :: 0 <= i < |all| && all[i].dev.id == id && all[i].attached == Some(b)
    {
      var i :| 0 <= i < |before| && before[i].dev.id == id && before[i].attached == Some(b);
      assert all[i] == before[i];
    }
  }

  /** Attaching one more backend of the snapshot cannot fail. */
  lemma SnapshotServes(atts: Attachments, was: seq<StoredDevice>, todo: set<string>, b: string)
    requires IsSnapshotOf(atts, was) && DistinctIds(was) && AllAttachable(was) && b in atts
    ensures DistinctIds(PartlyAttached(was, todo))
    ensures forall id :: id in atts[b] ==> Serves(PartlyAttached(was, todo), id)
  {
    forall id | id in atts[b]
      ensures Serves(PartlyAttached(was, todo), id)
    {
      var i :| 0 <= i < |was| && was[i].dev.id == id && was[i].attached == Some(b);
      assert PartlyAttached(was, todo)[i].dev == was[i].dev;
    }
  }

  /** Attaching a backend's ids puts back exactly its attachments. */
  lemma SnapshotStep(atts: Attachments, was: seq<StoredDevice>, todo: set<string>, b: string)
    requires IsSnapshotOf(atts, was) && DistinctIds(was) && b in atts && b in todo
    ensures AttachedTo(PartlyAttached(was, todo), b, atts[b]) == PartlyAttached(was, todo - {b})
  {
    forall i | 0 <= i < |was|
      ensures was[i].dev.id in atts[b] <==> was[i].attached == Some(b)
    {
      if was[i].dev.id in atts[b] {
        var j :| 0 <= j < |was| && was[j].dev.id == was[i].dev.id && was[j].attached == Some(b);
        assert i == j;
      }
    }
  }

  /** No ids stand for every device. */
  function DetachedFrom(devices: seq<StoredDevice>, backend: string, ids: seq<string>): (r: seq<StoredDevice>)
    ensures |r| == |devices|
  {
    seq(|devices|, i requires 0 <= i < |devices| =>
      if (ids == [] || devices[i].dev.id in ids) && devices[i].attached == Some(backend)
      then devices[i].(attached := None) else devices[i])
  }

  predicate AttachableId(md: seq<ModelDevice>, id: string) {
    exists i :: 0 <= i < |md| && md[i].id == id && Attachable(md[i])
  }

  class RuntimeManager {
    const portLimit: nat
    var kernel: Kernel
    var buses: seq<StoredBus>
    var devices: seq<StoredDevice>
    var byHandle: map<nat, string>
    var nextBus: nat
    var nextDevice: nat
    var modelName: Option<string>
    var generation: nat
    var state: State
    /** What the world will answer to the requests that may fail; when they are used up, nothing fails. */
    var answers: seq<bool>

    /** What holds in every state, desynced or not. */
    ghost predicate Consistent()
      reads this
    {
      && Inv(kernel)
      && HandlesOk(buses, devices, byHandle)
      && WellFormed(BusesOf(buses), DevicesOf(devices))
      && Held(BusesOf(buses), DevicesOf(devices), portLimit)
    }

    /** Between operations: unless the daemon says desynced, the kernel agrees with it. */
    ghost predicate Valid()
      reads this
    {
      && Consistent()
      && (state != Desynced ==> Agrees(kernel, buses, devices))
      && (state == Empty ==> buses == [] && devices == [] && modelName.None?)
      && (state == Ready ==> modelName.Some?)
      && state != Applying
    }

    /** A daemon starting against an empty kernel. */
    constructor (portLimit: nat, answers: seq<bool>)
      ensures Valid() && state == Empty && generation == 0 && this.portLimit == portLimit && this.answers == answers
    {
      this.portLimit := portLimit;
      kernel := EmptyKernel();
      buses, devices, byHandle := [], [], map[];
      nextBus, nextDevice := FIRST_BUS, FIRST_DEVICE;
      modelName, generation, state := None, 0, Empty;
      this.answers := answers;
      new;
      EmptyIsInv();
    }

    /** A request to the world: a bridge write, or one of the daemon's own steps that may raise. */
    method Ask() returns (ok: bool)
      modifies this`answers
      ensures ok == Next(old(answers)) && answers == Rest(old(answers))
      ensures Failures(old(answers)) == Failures(answers) + (if ok then 0 else 1)
    {
      if answers == [] {
        return true;
      }
      ok := answers[0];
      answers := answers[1..];
    }

    // ---- Bridge writes, any of which may fail and then leave the kernel alone ----

    method WriteReset() returns (ok: bool)
      requires Inv(kernel)
      modifies this`kernel, this`answers
      ensures kernel == if ok then EmptyKernel() else old(kernel)
      ensures ok == Next(old(answers)) && answers == Rest(old(answers))
      ensures Failures(old(answers)) == Failures(answers) + (if ok then 0 else 1)
    {
      ok := Ask();
      if ok {
        ResetEmptiesTheKernel(kernel);
        kernel := CmdReset(kernel);
      }
    }

    method WriteBus(b: ModelBus, handle: nat) returns (ok: bool)
      modifies this`kernel, this`answers
      ensures !ok ==> kernel == old(kernel)
      ensures ok ==> SendBus(old(kernel), b, handle, Env(portLimit, true)) == Some(kernel)
      ensures ok <==> Next(old(answers)) && SendBus(old(kernel), b, handle, Env(portLimit, true)).Some?
      ensures Failures(old(answers)) == Failures(answers) + (if Next(old(answers)) then 0 else 1)
    {
      ok := Ask();
      if ok {
        var r := SendBus(kernel, b, handle, Env(portLimit, true));
        if r.None? {
          return false;
        }
        kernel := r.value;
      }
    }

    method WriteDevice(d: ModelDevice, handle: nat, bus: nat) returns (ok: bool)
      modifies this`kernel, this`answers
      ensures !ok ==> kernel == old(kernel)
      ensures ok ==> SendDevice(old(kernel), d, handle, bus, Env(portLimit, true)) == Some(kernel)
      ensures ok <==> Next(old(answers)) && SendDevice(old(kernel), d, handle, bus, Env(portLimit, true)).Some?
      ensures Failures(old(answers)) == Failures(answers) + (if Next(old(answers)) then 0 else 1)
    {
      ok := Ask();
      if ok {
        var r := SendDevice(kernel, d, handle, bus, Env(portLimit, true));
        if r.None? {
          return false;
        }
        kernel := r.value;
      }
    }

    // ---- Building up an inventory ----

    /** _clear_state. */
    method ClearState()
      modifies this`buses, this`devices, this`byHandle, this`nextBus, this`nextDevice, this`modelName
      ensures buses == [] && devices == [] && byHandle == map[]
      ensures nextBus == FIRST_BUS && nextDevice == FIRST_DEVICE && modelName.None?
    {
      buses, devices, byHandle := [], [], map[];
      nextBus, nextDevice := FIRST_BUS, FIRST_DEVICE;
      modelName := None;
    }

    ghost predicate Building()
      reads this
    {
      && Inv(kernel) && HandlesOk(buses, devices, byHandle) && Agrees(kernel, buses, devices)
      && nextBus == FIRST_BUS + |buses| && nextDevice == FIRST_DEVICE + |devices|
      && Held(BusesOf(buses), DevicesOf(devices), portLimit)
    }

    /** _add_bus_locked. */
    method AddBus(b: ModelBus) returns (ok: bool)
      requires Building() && devices == []
      modifies this`kernel, this`buses, this`nextBus, this`answers
      ensures ok ==> Building() && BusesOf(buses) == BusesOf(old(buses)) + [b]
      ensures !ok ==> Inv(kernel) && buses == old(buses)
      ensures ok ==> Failures(answers) == Failures(old(answers))
      ensures !ok && BusWithinLimits(b) && FIRST_BUS + |buses| < U32 ==> Failures(answers) + 1 == Failures(old(answers))
      ensures Failures(answers) <= Failures(old(answers))
    {
      hide Inv, SendBus, BusWithinLimits, BusMap, Held;
      var handle := nextBus;
      nextBus := nextBus + 1;
      ghost var k := kernel;
      ok := WriteBus(b, handle);
      if handle < U32 {
        BusReplays(k, BusesOf(buses), b, Env(portLimit, true));
      }
      if !ok {
        return;
      }
      SendBusInRange(k, b, handle, Env(portLimit, true));
      HeldBus(BusesOf(buses), b, portLimit);
      buses := buses + [StoredBus(b, handle)];
      assert BusesOf(buses) == BusesOf(old(buses)) + [b];
    }

    /**
     _add_device_locked: the write, then the template, then the daemon's own records, then the modem
     defaults of a UART template. The last three steps may fail after the kernel has the device.
     */
    method AddDevice(d: ModelDevice) returns (ok: bool)
      requires Building() && WellFormed(BusesOf(buses), DevicesOf(devices) + [d])
      modifies this`kernel, this`devices, this`byHandle, this`nextDevice, this`answers
      ensures ok ==> Building() && DevicesOf(devices) == DevicesOf(old(devices)) + [d]
      ensures ok ==>
        var stored := StoredDevice(d, FIRST_DEVICE + |old(devices)|, BusHandle(BusesOf(buses), d.bus), None);
        devices == old(devices) + [stored]
      ensures !ok ==> Inv(kernel) && HandlesOk(buses, devices, byHandle)
      ensures !ok ==> devices == old(devices) || DevicesOf(devices) == DevicesOf(old(devices)) + [d]
      ensures Held(BusesOf(buses), DevicesOf(devices), portLimit)
      ensures ok ==> Failures(answers) == Failures(old(answers))
      ensures !ok && DeviceWithinLimits(d, Env(portLimit, true)) && FIRST_DEVICE + |old(devices)| < U32 ==>
        Failures(answers) + 1 == Failures(old(answers))
      ensures Failures(answers) <= Failures(old(answers))
    {
      hide Inv, SendDevice, DeviceWithinLimits, WellFormed, BusMap, Held, HandlesOk, Failures;
      var handle := nextDevice;
      nextDevice := nextDevice + 1;
      var busHandle := BusHandle(BusesOf(buses), d.bus);
      ghost var k := kernel;
      ok := WriteDevice(d, handle, busHandle);
      if handle < U32 {
        DeviceReplays(k, BusesOf(buses), DevicesOf(devices), d, Env(portLimit, true));
      }
      if !ok {
        return;
      }
      SendDeviceInRange(k, d, handle, busHandle, Env(portLimit, true));
      ok := Ask();
      if !ok {
        return;
      }
      HeldDevice(BusesOf(buses), DevicesOf(devices), d, portLimit);
      RecordDevice(d, handle, busHandle);
      if SendsDefaults(d) {
        ok := Ask();
      }
    }

    /** The daemon's own records of a device. */
    method RecordDevice(d: ModelDevice, handle: nat, busHandle: nat)
      requires HandlesOk(buses, devices, byHandle)
      requires handle == FIRST_DEVICE + |devices| && busHandle == BusHandle(BusesOf(buses), d.bus)
      modifies this`devices, this`byHandle
      ensures HandlesOk(buses, devices, byHandle)
      ensures devices == old(devices) + [StoredDevice(d, handle, busHandle, None)]
      ensures DevicesOf(devices) == DevicesOf(old(devices)) + [d]
    {
      hide BusHandle;
      devices := devices + [StoredDevice(d, handle, busHandle, None)];
      byHandle := byHandle[handle := d.id];
      assert DevicesOf(devices) == DevicesOf(old(devices)) + [d];
    }

    // ---- Attachments ----

    method FindDevice(id: string) returns (r: Option<nat>)
      ensures r.Some? ==> r.value < |devices| && devices[r.value].dev.id == id
      ensures r.None? ==> forall i :: 0 <= i < |devices| ==> devices[i].dev.id != id
    {
      var i := 0;
      while i < |devices|
        invariant i <= |devices|
        invariant forall j :: 0 <= j < i ==> devices[j].dev.id != id
      {
        if devices[i].dev.id == id {
          return Some(i);
        }
        i := i + 1;
      }
      return None;
    }

    /** _attach_backend_locked: check every id first, then attach; a refused call attaches nothing. */
    method AttachLocked(backend: string, ids: seq<string>) returns (ok: bool)
      requires DistinctIds(devices)
      modifies this`devices
      ensures ok <==> forall id :: id in ids ==> Serves(old(devices), id)
      ensures devices == if ok then AttachedTo(old(devices), backend, ids) else old(devices)
    {
      var n := 0;
      while n < |ids|
        invariant n <= |ids| && devices == old(devices)
        invariant forall m :: 0 <= m < n ==> Serves(devices, ids[m])
      {
        var r := FindDevice(ids[n]);
        if r.None? || !Attachable(devices[r.value].dev) {
          NotServed(devices, ids[n], r);
          return false;
        }
        n := n + 1;
      }
      n := 0;
      ghost var before := devices;
      while n < |ids|
        invariant n <= |ids| && devices == AttachedTo(before, backend, ids[..n])
      {
        var r := FindDevice(ids[n]);
        assert Serves(before, ids[n]) && forall i :: 0 <= i < |devices| ==> devices[i].dev == before[i].dev;
        assert r.Some?;
        assert ids[..n + 1] == ids[..n] + [ids[n]];
        devices := devices[r.value := devices[r.value].(attached := Some(backend))];
        assert devices == AttachedTo(before, backend, ids[..n + 1]);
        n := n + 1;
      }
      assert ids[..n] == ids;
      ok := true;
    }

    /** _snapshot_backend_attachments_locked. */
    method SnapshotAttachments() returns (atts: Attachments)
      ensures IsSnapshotOf(atts, devices)
    {
      atts := map[];
      var i := 0;
      while i < |devices|
        invariant i <= |devices| && IsSnapshotOf(atts, devices[..i])
      {
        ghost var before := devices[..i];
        assert devices[..i + 1] == before + [devices[i]];
        if devices[i].attached.Some? {
          var b := devices[i].attached.value;
          ghost var old_ := atts;
          atts := atts[b := (if b in atts then atts[b] else []) + [devices[i].dev.id]];
          SnapshotGrows(old_, before, devices[i], atts);
        } else {
          SnapshotSkips(atts, before, devices[i]);
        }
        i := i + 1;
      }
      assert devices[..i] == devices;
    }

    /** The attachments of a snapshot, put back on devices that have none. */
    method RestoreAttachments(atts: Attachments, ghost was: seq<StoredDevice>) returns (ok: bool)
      requires IsSnapshotOf(atts, was) && DistinctIds(was) && AllAttachable(was)
      requires devices == Detached(was)
      modifies this`devices
      ensures ok && devices == was
    {
      var todo := atts.Keys;
      while todo != {}
        invariant todo <= atts.Keys && devices == PartlyAttached(was, todo)
        decreases todo
      {
        var b :| b in todo;
        SnapshotServes(atts, was, todo, b);
        var done := AttachLocked(b, atts[b]);
        assert done;
        SnapshotStep(atts, was, todo, b);
        todo := todo - {b};
      }
      assert devices == was;
      ok := true;
    }

    // ---- Transactions ----

    /** A prefix of the model's buses, and of its devices once all buses are there. */
    ghost predicate Partial(mb: seq<ModelBus>, md: seq<ModelDevice>)
      reads this
    {
      && Inv(kernel) && HandlesOk(buses, devices, byHandle)
      && BusesOf(buses) <= mb && DevicesOf(devices) <= md && (devices != [] ==> BusesOf(buses) == mb)
      && Held(BusesOf(buses), DevicesOf(devices), portLimit)
    }

    method AddBuses(mb: seq<ModelBus>) returns (ok: bool)
      requires Building() && buses == [] && devices == []
      modifies this`kernel, this`buses, this`nextBus, this`answers
      ensures ok ==> Building() && BusesOf(buses) == mb
      ensures !ok ==> Partial(mb, [])
      ensures ok ==> Failures(answers) == Failures(old(answers))
      ensures !ok && (forall i :: 0 <= i < |mb| ==> BusWithinLimits(mb[i]) && FIRST_BUS + i < U32) ==>
        Failures(answers) + 1 == Failures(old(answers))
      ensures Failures(answers) <= Failures(old(answers))
    {
      hide Inv, HandlesOk, Agrees, Held, BusWithinLimits;
      var i := 0;
      while i < |mb|
        invariant i <= |mb| && Building() && BusesOf(buses) == mb[..i]
        invariant Failures(answers) == Failures(old(answers))
      {
        ok := AddBus(mb[i]);
        if !ok {
          NoDevicesHandles(buses, byHandle);
          return;
        }
        assert mb[..i + 1] == mb[..i] + [mb[i]];
        i := i + 1;
      }
      assert mb[..i] == mb;
      ok := true;
    }

    method AddDevices(mb: seq<ModelBus>, md: seq<ModelDevice>) returns (ok: bool)
      requires Building() && BusesOf(buses) == mb && devices == [] && WellFormed(mb, md)
      modifies this`kernel, this`devices, this`byHandle, this`nextDevice, this`answers
      ensures ok ==> Building() && DevicesOf(devices) == md && Detached(devices) == devices
      ensures !ok ==> Partial(mb, md)
      ensures ok ==> Failures(answers) == Failures(old(answers))
      ensures
        !ok && (forall i :: 0 <= i < |md| ==>
          DeviceWithinLimits(md[i], Env(portLimit, true)) && FIRST_DEVICE + i < U32) ==>
          Failures(answers) + 1 == Failures(old(answers))
      ensures Failures(answers) <= Failures(old(answers))
    {
      hide Inv, HandlesOk, Agrees, WellFormed, Held, DeviceWithinLimits;
      var i := 0;
      while i < |md|
        invariant i <= |md| && Building() && DevicesOf(devices) == md[..i]
        invariant Failures(answers) == Failures(old(answers))
        invariant forall j :: 0 <= j < |devices| ==> devices[j].attached.None?
      {
        assert md[..i + 1] == md[..i] + [md[i]];
        WellFormedPrefix(mb, md, i + 1);
        ok := AddDevice(md[i]);
        if !ok {
          return;
        }
        i := i + 1;
      }
      assert md[..i] == md;
      ok := true;
    }

    /** _apply_model_locked on a cleared daemon and an empty kernel, before any attachment. */
    method ApplyLocked(name: string, mb: seq<ModelBus>, md: seq<ModelDevice>) returns (ok: bool)
      requires kernel == EmptyKernel() && buses == [] && devices == [] && byHandle == map[]
      requires nextBus == FIRST_BUS && nextDevice == FIRST_DEVICE && WellFormed(mb, md)
      modifies this`kernel, this`buses, this`devices, this`byHandle, this`nextBus, this`nextDevice, this`modelName
      modifies this`answers
      ensures ok ==> Building() && BusesOf(buses) == mb && DevicesOf(devices) == md && Detached(devices) == devices
      ensures ok ==> modelName == Some(name) && Held(mb, md, portLimit)
      ensures !ok ==> Partial(mb, md)
      ensures ok ==> Failures(answers) == Failures(old(answers))
      ensures !ok && Held(mb, md, portLimit) ==> Failures(answers) + 1 == Failures(old(answers))
      ensures Failures(answers) <= Failures(old(answers))
    {
      EmptyIsInv();
      NothingIsHeld(portLimit);
      if Held(mb, md, portLimit) {
        HeldItems(mb, md, portLimit);
      }
      hide Inv, WellFormed, Held, BusWithinLimits, DeviceWithinLimits, Failures;
      modelName := Some(name);
      ok := AddBuses(mb);
      if ok {
        ok := AddDevices(mb, md);
      }
    }

    /** _discard_runtime_state_after_failure. */
    method DiscardAfterFailure() returns (ok: bool)
      requires Inv(kernel)
      modifies this
      ensures generation == old(generation)
      ensures ok ==> kernel == EmptyKernel() && state == Empty
      ensures ok ==> buses == [] && devices == [] && byHandle == map[] && modelName.None?
      ensures ok ==> nextBus == FIRST_BUS && nextDevice == FIRST_DEVICE
      ensures !ok ==> state == Desynced && kernel == old(kernel)
      ensures !ok ==> buses == old(buses) && devices == old(devices) && byHandle == old(byHandle)
      ensures Failures(old(answers)) == Failures(answers) + (if ok then 0 else 1)
    {
      ok := WriteReset();
      if ok {
        ClearState();
        state := Empty;
      } else {
        state := Desynced;
      }
    }

    /** Rebuild an inventory, attachments included, on a cleared daemon and an empty kernel. */
    method Rebuild(name: string, mb: seq<ModelBus>, md: seq<ModelDevice>, atts: Attachments, gen: nat,
                   ghost wasBuses: seq<StoredBus>, ghost was: seq<StoredDevice>, ghost wasIndex: map<nat, string>)
      returns (ok: bool)
      requires kernel == EmptyKernel() && buses == [] && devices == [] && byHandle == map[]
      requires nextBus == FIRST_BUS && nextDevice == FIRST_DEVICE
      requires HandlesOk(wasBuses, was, wasIndex) && BusesOf(wasBuses) == mb && DevicesOf(was) == md
      requires WellFormed(mb, md) && IsSnapshotOf(atts, was) && AllAttachable(was)
      modifies this
      ensures ok ==>
        && Inv(kernel) && Agrees(kernel, buses, devices)
        && buses == wasBuses && devices == was && byHandle == wasIndex
        && modelName == Some(name) && generation == gen && state == Ready
      ensures !ok ==> Partial(mb, md) && generation == old(generation) && state == old(state)
      ensures ok ==> Failures(answers) == Failures(old(answers)) && Held(mb, md, portLimit)
      ensures !ok && Held(mb, md, portLimit) ==> Failures(answers) + 1 == Failures(old(answers))
      ensures Failures(answers) <= Failures(old(answers))
    {
      hide Inv, WellFormed, Held, Failures;
      ok := ApplyLocked(name, mb, md);
      if !ok {
        return;
      }
      SameHandles(wasBuses, was, wasIndex, buses, devices, byHandle);
      assert DistinctIds(was) by { WellFormedIsDistinct(mb, md, was); }
      ok := RestoreAttachments(atts, was);
      generation := gen;
      state := Ready;
    }

    /** _export_model_locked and normalisation again: the inventory's own model, never refused. */
    method ReloadModel(bs: seq<StoredBus>, ds: seq<StoredDevice>) returns (mb: seq<ModelBus>, md: seq<ModelDevice>)
      requires WellFormed(BusesOf(bs), DevicesOf(ds))
      ensures mb == BusesOf(bs) && md == DevicesOf(ds)
    {
      ExportRoundTrips(BusesOf(bs), DevicesOf(ds));
      hide WellFormed, NormalizeBus, NormalizeDevice, ExportBus, ExportDevice, BusesClash, DevicesClash, BusMap;
      var rb := seq(|bs|, i requires 0 <= i < |bs| => ExportBus(BusesOf(bs)[i]));
      var rd := seq(|ds|, i requires 0 <= i < |ds| => ExportDevice(DevicesOf(ds)[i]));
      assert BusesAccepted(rb, BusesOf(bs)) && DevicesAccepted(rd, BusesOf(bs), DevicesOf(ds));
      var b := NormalizeBuses(rb);
      mb := b.value;
      assert mb == BusesOf(bs);
      var d := NormalizeDevices(rd, mb);
      md := d.value;
      assert md == DevicesOf(ds);
    }

    /** _validate_backend_attachments_for_devices. */
    method ValidateAttachments(atts: Attachments, md: seq<ModelDevice>) returns (ok: bool)
      ensures ok <==> forall b, id :: b in atts && id in atts[b] ==> AttachableId(md, id)
    {
      var todo := atts.Keys;
      while todo != {}
        invariant todo <= atts.Keys
        invariant forall b, id :: b in atts && b !in todo && id in atts[b] ==> AttachableId(md, id)
        decreases todo
      {
        var b :| b in todo;
        var n := 0;
        while n < |atts[b]|
          invariant n <= |atts[b]|
          invariant forall m :: 0 <= m < n ==> AttachableId(md, atts[b][m])
        {
          if !(exists i :: 0 <= i < |md| && md[i].id == atts[b][n] && Attachable(md[i])) {
            assert atts[b][n] in atts[b] && !AttachableId(md, atts[b][n]);
            return false;
          }
          n := n + 1;
        }
        todo := todo - {b};
      }
      ok := true;
    }

    /** normalize_runtime_model_data. */
    method NormalizeModel(rb: seq<RawBus>, rd: seq<RawDevice>)
      returns (accepted: bool, mb: seq<ModelBus>, md: seq<ModelDevice>)
      ensures accepted ==> BusesAccepted(rb, mb) && DevicesAccepted(rd, mb, md) && WellFormed(mb, md)
      ensures !accepted ==> !exists b, d :: BusesAccepted(rb, b) && DevicesAccepted(rd, b, d)
    {
      hide WellFormed, NormalizeBus, NormalizeDevice, BusesClash, DevicesClash, BusMap;
      accepted, mb, md := false, [], [];
      var buses := NormalizeBuses(rb);
      if buses.None? {
        return;
      }
      var devices := NormalizeDevices(rd, buses.value);
      if devices.None? {
        forall b | BusesAccepted(rb, b)
          ensures b == buses.value
        {
        }
        return;
      }
      accepted, mb, md := true, buses.value, devices.value;
      AcceptedIsWellFormed(rb, rd, mb, md);
    }

    /**
     apply_model. A refused or blocked call changes nothing; a failed one ends with exactly the
     previous inventory, attachments, name and generation, or desynced. It fails only for a model that
     is not accepted or beyond the limits of the kernel, or on a failed request; left are the answers
     when it gives up, and it ends desynced if and only if a request of the cleanup or the rollback
     fails, or an attachment is no longer valid.
     */
    method Apply(name: string, rb: seq<RawBus>, rd: seq<RawDevice>) returns (ok: bool, ghost left: seq<bool>)
      requires Valid()
      modifies this
      ensures Valid()
      ensures ok ==>
        && old(state) != Desynced && state == Ready && generation == old(generation) + 1
        && modelName == Some(name) && Detached(devices) == devices
        && BusesAccepted(rb, BusesOf(buses)) && DevicesAccepted(rd, BusesOf(buses), DevicesOf(devices))
      ensures !ok && state != Desynced ==>
        && state == old(state) && buses == old(buses) && devices == old(devices)
        && byHandle == old(byHandle) && generation == old(generation) && modelName == old(modelName)
      ensures !ok ==> generation == old(generation)
      ensures old(state) == Desynced ==>
        && !ok && state == Desynced && kernel == old(kernel) && answers == old(answers)
        && buses == old(buses) && devices == old(devices) && byHandle == old(byHandle)
      ensures Failures(answers) <= Failures(left) <= Failures(old(answers))
      ensures old(state) != Desynced && Appliable(rb, rd, portLimit) && !ok ==>
        Failures(left) + 1 == Failures(old(answers))
      ensures old(state) != Desynced && Failures(old(answers)) == 0 ==> (ok <==> Appliable(rb, rd, portLimit))
      ensures old(state) != Desynced && !ok && !Acceptable(rb, rd) ==> state == old(state)
      ensures old(state) != Desynced && !ok && Acceptable(rb, rd) ==>
        (state == Desynced <==> !old(AllAttachable(devices)) || Failures(answers) < Failures(left))
    {
      hide Inv, WellFormed, HandlesOk, Agrees, BusesAccepted, DevicesAccepted, IsSnapshotOf, AllAttachable, Held,
           Failures;
      left := answers;
      var accepted, mb, md := NormalizeModel(rb, rd);
      if !accepted || state == Desynced {
        return false, answers;
      }
      AcceptedOnce(rb, rd, mb, md, portLimit);
      var hadInventory := buses != [] || devices != [] || modelName.Some?;
      var oldBuses, oldDevices, oldName, oldGeneration := buses, devices, modelName, generation;
      ghost var oldIndex := byHandle;
      var atts := SnapshotAttachments();
      ok := TryApply(name, mb, md);
      left := answers;
      if ok {
        return;
      }
      CleanUp(hadInventory, oldName, oldBuses, oldDevices, atts, oldGeneration, oldIndex);
      ok := false;
    }

    /** The try arm of apply_model. */
    method TryApply(name: string, mb: seq<ModelBus>, md: seq<ModelDevice>) returns (ok: bool)
      requires Consistent() && WellFormed(mb, md)
      modifies this
      ensures Consistent() && generation == old(generation) + (if ok then 1 else 0)
      ensures ok ==>
        && Valid() && state == Ready && modelName == Some(name) && Held(mb, md, portLimit)
        && BusesOf(buses) == mb && DevicesOf(devices) == md && Detached(devices) == devices
      ensures Failures(answers) <= Failures(old(answers))
      ensures ok ==> Failures(answers) == Failures(old(answers))
      ensures !ok && Held(mb, md, portLimit) ==> Failures(answers) + 1 == Failures(old(answers))
    {
      hide Inv, WellFormed, HandlesOk, Agrees, Held, Failures;
      state := Applying;
      ok := WriteReset();
      if !ok {
        return;
      }
      ClearState();
      ok := ApplyLocked(name, mb, md);
      if ok {
        generation := generation + 1;
        state := Ready;
      } else {
        PartialIsConsistent(mb, md, buses, devices);
      }
    }

    /** The failure arm of apply_model: empty both sides, then put the previous inventory back, if there was one. */
    method CleanUp(hadInventory: bool, name: Option<string>, bs: seq<StoredBus>, ds: seq<StoredDevice>,
                   atts: Attachments, gen: nat, ghost m: map<nat, string>)
      requires Consistent() && generation == gen
      requires HandlesOk(bs, ds, m) && WellFormed(BusesOf(bs), DevicesOf(ds)) && IsSnapshotOf(atts, ds)
      requires Held(BusesOf(bs), DevicesOf(ds), portLimit)
      requires if hadInventory then name.Some? else bs == [] && ds == [] && name.None?
      modifies this
      ensures Valid() && generation == gen
      ensures state != Desynced ==>
        && state == (if hadInventory then Ready else Empty)
        && buses == bs && devices == ds && byHandle == m && modelName == name
      ensures Failures(answers) <= Failures(old(answers))
      ensures state == Desynced <==> !AllAttachable(ds) || Failures(answers) < Failures(old(answers))
    {
      hide Inv, WellFormed, HandlesOk, Agrees, IsSnapshotOf, AllAttachable, Held, Failures;
      var cleaned := DiscardAfterFailure();
      if !cleaned {
        return;
      }
      if hadInventory {
        RollBack(name, bs, ds, atts, gen, m);
      } else {
        NothingIsConsistent(m);
        NothingIsHeld(portLimit);
        NothingAttached();
      }
    }

    /** The rollback arm of apply_model. */
    method RollBack(name: Option<string>, bs: seq<StoredBus>, ds: seq<StoredDevice>, atts: Attachments,
                    gen: nat, ghost m: map<nat, string>)
      requires kernel == EmptyKernel() && buses == [] && devices == [] && byHandle == map[]
      requires nextBus == FIRST_BUS && nextDevice == FIRST_DEVICE && generation == gen
      requires HandlesOk(bs, ds, m) && WellFormed(BusesOf(bs), DevicesOf(ds)) && IsSnapshotOf(atts, ds)
      requires name.Some? && Held(BusesOf(bs), DevicesOf(ds), portLimit)
      modifies this
      ensures Valid() && (state == Ready || state == Desynced) && generation == gen
      ensures state == Ready ==>
        && buses == bs && devices == ds && byHandle == m && generation == gen && modelName == name
      ensures Failures(answers) <= Failures(old(answers))
      ensures state == Desynced <==> !AllAttachable(ds) || Failures(answers) < Failures(old(answers))
    {
      hide Inv, WellFormed, HandlesOk, Agrees, IsSnapshotOf, AllAttachable, Held, Failures;
      EmptyIsConsistent();
      NothingIsHeld(portLimit);
      var mb, md := ReloadModel(bs, ds);
      var valid := ValidateAttachments(atts, md);
      WellFormedIsDistinct(mb, md, ds);
      AttachableIffValid(atts, ds);
      if !valid {
        NothingIsConsistent(byHandle);
        state := Desynced;
        return;
      }
      var ok := Rebuild(name.value, mb, md, atts, gen, bs, ds, m);
      if !ok {
        PartialIsConsistent(mb, md, buses, devices);
        state := Desynced;
      }
    }

    /** reset_runtime: a failed reset changes nothing. */
    method Reset() returns (ok: bool)
      requires Valid()
      modifies this
      ensures Valid()
      ensures ok ==>
        && old(state) != Desynced && state == Empty && kernel == EmptyKernel()
        && generation == old(generation) + 1 && buses == [] && devices == []
      ensures Failures(answers) <= Failures(old(answers))
      ensures !ok ==>
        && kernel == old(kernel) && buses == old(buses) && devices == old(devices) && byHandle == old(byHandle)
        && state == old(state) && generation == old(generation)
      ensures ok <==> old(state) != Desynced && Next(old(answers))
      ensures answers == if old(state) != Desynced then Rest(old(answers)) else old(answers)
    {
      hide Inv, WellFormed, HandlesOk, Agrees, Held;
      if state == Desynced {
        return false;
      }
      ok := WriteReset();
      if ok {
        ClearState();
        generation := generation + 1;
        state := Empty;
        EmptyIsConsistent();
        NothingIsConsistent(byHandle);
        NothingIsHeld(portLimit);
      }
    }

    /**
     resync_runtime: success restores exactly the daemon's inventory under the next generation; a
     failure is desynced with a prefix of it, or, when an attachment cannot be restored, no change.
     */
    method Resync() returns (ok: bool)
      requires Valid()
      modifies this
      ensures Valid()
      ensures ok ==>
        && state == Ready && generation == old(generation) + 1
        && buses == old(buses) && devices == old(devices) && byHandle == old(byHandle)
        && modelName == Some(if old(modelName).Some? then old(modelName).value else "runtime")
      ensures !ok && old(AllAttachable(devices)) ==>
        && state == Desynced && generation == old(generation)
        && BusesOf(buses) <= BusesOf(old(buses)) && DevicesOf(devices) <= DevicesOf(old(devices))
      ensures !old(AllAttachable(devices)) ==>
        && !ok && state == old(state) && kernel == old(kernel) && generation == old(generation)
        && answers == old(answers)
        && buses == old(buses) && devices == old(devices) && byHandle == old(byHandle)
      ensures Failures(answers) <= Failures(old(answers))
      ensures ok <==> old(AllAttachable(devices)) && Failures(answers) == Failures(old(answers))
    {
      hide Inv, WellFormed, HandlesOk, Agrees, IsSnapshotOf, AllAttachable, Held, Failures;
      var oldBuses, oldDevices := buses, devices;
      ghost var oldIndex := byHandle;
      var name := if modelName.Some? then modelName.value else "runtime";
      var atts := SnapshotAttachments();
      var mb, md := ReloadModel(buses, devices);
      var valid := ValidateAttachments(atts, md);
      WellFormedIsDistinct(mb, md, devices);
      AttachableIffValid(atts, devices);
      if !valid {
        return false;
      }
      ok := WriteReset();
      if !ok {
        state := Desynced;
        return;
      }
      ClearState();
      state := Applying;
      ok := Rebuild(name, mb, md, atts, generation + 1, oldBuses, oldDevices, oldIndex);
      if !ok {
        PartialIsConsistent(mb, md, buses, devices);
        state := Desynced;
      }
    }

    /** attach_backend. */
    method Attach(backend: string, ids: seq<string>) returns (ok: bool)
      requires Valid()
      modifies this`devices
      ensures Valid()
      ensures ok <==> state != Desynced && forall id :: id in ids ==> Serves(old(devices), id)
      ensures devices == if ok then AttachedTo(old(devices), backend, ids) else old(devices)
    {
      hide Inv, WellFormed, HandlesOk, Agrees, Serves;
      if state == Desynced {
        return false;
      }
      WellFormedIsDistinct(BusesOf(buses), DevicesOf(devices), devices);
      ok := AttachLocked(backend, ids);
      AttachmentsAreNotInventory(buses, old(devices), devices, byHandle);
    }

    /** detach_backend of the listed devices, or of every device when none is listed. */
    method Detach(backend: string, ids: seq<string>) returns (ok: bool)
      requires Valid()
      modifies this`devices
      ensures Valid() && (ok <==> state != Desynced)
      ensures devices == if ok then DetachedFrom(old(devices), backend, ids) else old(devices)
    {
      hide Inv, WellFormed, HandlesOk, Agrees;
      if state == Desynced {
        return false;
      }
      ghost var before := devices;
      ghost var after := DetachedFrom(before, backend, ids);
      var i := 0;
      while i < |devices|
        invariant i <= |devices| == |before|
        invariant forall j :: 0 <= j < |before| ==> devices[j] == if j < i then after[j] else before[j]
      {
        var d := devices[i];
        if (ids == [] || d.dev.id in ids) && d.attached == Some(backend) {
          devices := devices[i := d.(attached := None)];
        }
        i := i + 1;
      }
      assert devices == after;
      AttachmentsAreNotInventory(buses, before, devices, byHandle);
      ok := true;
    }

    /**
     update_device of the backend: the record changes even when the call then fails because a device
     under an external backend may not become broker-managed, or because the modem defaults of a UART
     template cannot be written. The attachment stays.
     */
    method UpdateBackend(id: string, backend: Backend) returns (ok: bool)
      requires Valid() && BackendFits(backend)
      modifies this`devices, this`answers
      ensures Valid()
      ensures state == Desynced || (forall i :: 0 <= i < |devices| ==> old(devices)[i].dev.id != id) ==>
        !ok && devices == old(devices) && answers == old(answers)
      ensures Failures(answers) <= Failures(old(answers))
      ensures state != Desynced ==> forall i :: 0 <= i < |devices| && old(devices)[i].dev.id == id ==>
        && devices == old(devices)[i := old(devices)[i].(dev := old(devices)[i].dev.(backend := backend))]
        && (ok <==>
              && !(backend == Controller(true) && devices[i].attached.Some?)
              && (SendsDefaults(devices[i].dev) ==> Next(old(answers))))
    {
      hide Inv, WellFormed, HandlesOk, Agrees, Held;
      if state == Desynced {
        return false;
      }
      var r := FindDevice(id);
      if r.None? {
        return false;
      }
      var i := r.value;
      WellFormedIsDistinct(BusesOf(buses), DevicesOf(devices), devices);
      BackendIsNotInventory(buses, devices, i, backend, byHandle);
      HeldIgnoresBackends(BusesOf(buses), DevicesOf(devices),
        DevicesOf(devices[i := devices[i].(dev := devices[i].dev.(backend := backend))]), portLimit);
      devices := devices[i := devices[i].(dev := devices[i].dev.(backend := backend))];
      if backend == Controller(true) && devices[i].attached.Some? {
        return false;
      }
      ok := true;
      if SendsDefaults(devices[i].dev) {
        ok := Ask();
      }
    }

    /** The bridge reader, or the kernel's own flag, reports that the session is broken. */
    method ReportDesync()
      requires Valid()
      modifies this`state
      ensures Valid() && state == Desynced
    {
      hide Inv, WellFormed, HandlesOk, Agrees;
      state := Desynced;
    }
  }

  /** The normal form of a model, of which there is at most one. */
  ghost predicate Acceptable(rb: seq<RawBus>, rd: seq<RawDevice>) {
    exists mb, md :: BusesAccepted(rb, mb) && DevicesAccepted(rd, mb, md)
  }

  /** A model that is accepted and that the kernel can hold. */
  ghost predicate Appliable(rb: seq<RawBus>, rd: seq<RawDevice>, portLimit: nat) {
    exists mb, md :: BusesAccepted(rb, mb) && DevicesAccepted(rd, mb, md) && Held(mb, md, portLimit)
  }

  lemma AcceptedOnce(rb: seq<RawBus>, rd: seq<RawDevice>, mb: seq<ModelBus>, md: seq<ModelDevice>, portLimit: nat)
    requires BusesAccepted(rb, mb) && DevicesAccepted(rd, mb, md)
    ensures Acceptable(rb, rd) && (Appliable(rb, rd, portLimit) <==> Held(mb, md, portLimit))
  {
    hide NormalizeBus, NormalizeDevice, BusesClash, DevicesClash, BusMap, Held;
    forall mb', md' | BusesAccepted(rb, mb') && DevicesAccepted(rd, mb', md')
      ensures mb' == mb && md' == md
    {
      assert forall i :: 0 <= i < |rb| ==> mb'[i] == mb[i];
      assert mb' == mb;
      assert forall i :: 0 <= i < |rd| ==> md'[i] == md[i];
    }
  }

  lemma NothingAttached()
    ensures AllAttachable([])
  {
  }

  lemma SendBusInRange(k: Kernel, b: ModelBus, handle: nat, env: Env)
    ensures SendBus(k, b, handle, env).Some? ==> handle < U32
  {
  }

  lemma SendDeviceInRange(k: Kernel, d: ModelDevice, handle: nat, bus: nat, env: Env)
    ensures SendDevice(k, d, handle, bus, env).Some? ==> handle < U32 && bus < U32
  {
  }

  lemma NoDevicesHandles(buses: seq<StoredBus>, byHandle: map<nat, string>)
    requires HandlesOk(buses, [], byHandle)
    ensures byHandle == map[]
  {
    assert forall h :: h !in byHandle;
  }

  lemma WellFormedIsDistinct(mb: seq<ModelBus>, md: seq<ModelDevice>, devices: seq<StoredDevice>)
    requires WellFormed(mb, md) && DevicesOf(devices) == md
    ensures DistinctIds(devices)
  {
    hide BusFits, DeviceFits, BusMap, Key;
    assert forall i, j :: 0 <= i < j < |md| ==> md[i].id != md[j].id;
  }

  /** The same model in the same order gets the same handles and the same handle index. */
  lemma SameHandles(bs: seq<StoredBus>, ds: seq<StoredDevice>, m: map<nat, string>,
                    bs': seq<StoredBus>, ds': seq<StoredDevice>, m': map<nat, string>)
    requires HandlesOk(bs, ds, m) && HandlesOk(bs', ds', m')
    requires BusesOf(bs) == BusesOf(bs') && DevicesOf(ds) == DevicesOf(ds')
    ensures bs == bs' && m == m' && Detached(ds) == Detached(ds')
  {
    forall i | 0 <= i < |bs|
      ensures bs[i] == bs'[i]
    {
      assert BusesOf(bs)[i] == BusesOf(bs')[i];
    }
    forall i | 0 <= i < |ds|
      ensures ds[i].(attached := None) == ds'[i].(attached := None)
    {
      assert DevicesOf(ds)[i] == DevicesOf(ds')[i];
    }
    forall h
      ensures h in m <==> h in m'
      ensures h in m ==> m[h] == m'[h]
    {
      if FIRST_DEVICE <= h < FIRST_DEVICE + |ds| {
        assert ds[h - FIRST_DEVICE].handle == h && ds'[h - FIRST_DEVICE].handle == h;
      }
    }
  }

  lemma PartialIsConsistent(mb: seq<ModelBus>, md: seq<ModelDevice>, buses: seq<StoredBus>, devices: seq<StoredDevice>)
    requires WellFormed(mb, md) && BusesOf(buses) <= mb && DevicesOf(devices) <= md
    requires devices != [] ==> BusesOf(buses) == mb
    ensures WellFormed(BusesOf(buses), DevicesOf(devices))
  {
    hide BusFits, DeviceFits, BusesClash, DevicesClash, BusMap;
    if devices != [] {
      assert DevicesOf(devices) == md[..|devices|];
      WellFormedPrefix(mb, md, |devices|);
    }
  }

  lemma EmptyIsConsistent()
    ensures Inv(EmptyKernel()) && Agrees(EmptyKernel(), [], []) && WellFormed(BusesOf([]), DevicesOf([]))
  {
    EmptyIsInv();
  }

  lemma NothingIsConsistent(m: map<nat, string>)
    ensures HandlesOk([], [], m) <==> m == map[]
    ensures Inv(EmptyKernel()) && Agrees(EmptyKernel(), [], []) && WellFormed(BusesOf([]), DevicesOf([]))
  {
    EmptyIsInv();
    if HandlesOk([], [], m) {
      NoDevicesHandles([], m);
    }
  }

  lemma AttachableIffValid(atts: Attachments, devices: seq<StoredDevice>)
    requires IsSnapshotOf(atts, devices) && DistinctIds(devices)
    ensures AllAttachable(devices)
      <==> forall b, id :: b in atts && id in atts[b] ==> AttachableId(DevicesOf(devices), id)
  {
    hide Attachable;
    var md := DevicesOf(devices);
    if AllAttachable(devices) {
      forall b, id | b in atts && id in atts[b]
        ensures AttachableId(md, id)
      {
        var i :| 0 <= i < |devices| && devices[i].dev.id == id && devices[i].attached == Some(b);
        assert md[i].id == id;
      }
    }
    if forall b, id :: b in atts && id in atts[b] ==> AttachableId(md, id) {
      forall i | 0 <= i < |devices| && devices[i].attached.Some?
        ensures Attachable(devices[i].dev)
      {
        assert AttachableId(md, devices[i].dev.id);
        var j :| 0 <= j < |md| && md[j].id == devices[i].dev.id && Attachable(md[j]);
        assert devices[j].dev.id == devices[i].dev.id;
      }
    }
  }

  lemma AttachmentsAreNotInventory(buses: seq<StoredBus>, ds: seq<StoredDevice>, ds': seq<StoredDevice>,
                                   m: map<nat, string>)
    requires |ds| == |ds'| && forall i :: 0 <= i < |ds| ==> ds'[i] == ds[i].(attached := ds'[i].attached)
    ensures DevicesOf(ds') == DevicesOf(ds)
    ensures HandlesOk(buses, ds, m) ==> HandlesOk(buses, ds', m)
    ensures forall k :: Agrees(k, buses, ds) ==> Agrees(k, buses, ds')
  {
    assert DevicesOf(ds') == DevicesOf(ds);
  }

  /** The kernel knows nothing of backends, so changing one keeps every agreement. */
  lemma BackendIsNotInventory(buses: seq<StoredBus>, ds: seq<StoredDevice>, i: nat, backend: Backend,
                             m: map<nat, string>)
    requires i < |ds| && BackendFits(backend) && HandlesOk(buses, ds, m) && WellFormed(BusesOf(buses), DevicesOf(ds))
    ensures
      var ds' := ds[i := ds[i].(dev := ds[i].dev.(backend := backend))];
      && HandlesOk(buses, ds', m) && WellFormed(BusesOf(buses), DevicesOf(ds'))
      && forall k :: Agrees(k, buses, ds) ==> Agrees(k, buses, ds')
  {
    hide MirrorsBuses, MirrorsDevices, WellFormed, BackendFits;
    var ds' := ds[i := ds[i].(dev := ds[i].dev.(backend := backend))];
    var md, md' := DevicesOf(ds), DevicesOf(ds');
    assert forall j :: 0 <= j < |md| ==> md'[j] == md[j].(backend := md'[j].backend);
    forall k | MirrorsDevices(k, BusesOf(buses), md)
      ensures MirrorsDevices(k, BusesOf(buses), md')
    {
      BackendIsNotInKernel(k, BusesOf(buses), md, md');
    }
    BackendKeepsWellFormed(BusesOf(buses), md, md');
  }

  lemma BackendIsNotInKernel(k: Kernel, mb: seq<ModelBus>, md: seq<ModelDevice>, md': seq<ModelDevice>)
    requires MirrorsDevices(k, mb, md) && |md| == |md'|
    requires forall i :: 0 <= i < |md| ==> md'[i] == md[i].(backend := md'[i].backend)
    ensures MirrorsDevices(k, mb, md')
  {
    hide DaemonParseTty;
    forall i | 0 <= i < |md'|
      ensures Location(md'[i]) == Location(md[i]) && NodeName(md'[i]) == NodeName(md[i])
    {
    }
  }

  lemma BackendKeepsWellFormed(mb: seq<ModelBus>, md: seq<ModelDevice>, md': seq<ModelDevice>)
    requires WellFormed(mb, md) && |md| == |md'|
    requires forall i :: 0 <= i < |md| ==> md'[i] == md[i].(backend := md'[i].backend)
    requires forall i :: 0 <= i < |md| ==> md'[i] == md[i] || BackendFits(md'[i].backend)
    ensures WellFormed(mb, md')
  {
    hide BusFits, BusesClash, BusMap, PlaceFits, IsName;
    forall i | 0 <= i < |md'|
      ensures DeviceFits(md'[i], BusMap(mb)) && Key(md'[i]) == Key(md[i])
    {
      assert DeviceFits(md[i], BusMap(mb));
    }
    forall i, j | 0 <= i < j < |md'|
      ensures !DevicesClash(md'[i], md'[j])
    {
      assert !DevicesClash(md[i], md[j]);
    }
  }
}
