/** The runtime model a user applies, and the normalisation that accepts or rejects it. */
module RuntimeModel {
  import opened Words
  import opened Names
  import opened KernelModel

  datatype Backend = Template(name: string) | Controller(worker: bool)

  // ---- What the caller writes ----

  datatype RawBackend = RawBackend(kind: string, template: string, worker: Option<seq<string>>)
  datatype RawBus = RawBus(id: string, transport: string, name: string)
  datatype RawSpi = RawSpi(mode: int, bits: int, maxSpeed: int)
  datatype RawDevice = RawDevice(id: string, bus: string, transport: string, backend: RawBackend,
                                 address: Option<int>, chipSelect: Option<int>,
                                 deviceName: Option<string>, portName: Option<string>, spi: RawSpi)

  // ---- What normalisation returns ----

  datatype ModelBus = ModelBus(id: string, transport: Transport, name: string)

  /** Where a device sits: an I2C address, an SPI chip select, or a tty port. */
  datatype Place = Address(address: nat) | ChipSelect(cs: nat, node: string) | Port(port: string)

  datatype ModelDevice = ModelDevice(id: string, bus: string, place: Place, backend: Backend, spi: SpiSettings)

  datatype Model = Model(name: string, buses: seq<ModelBus>, devices: seq<ModelDevice>)

  function PlaceTransport(p: Place): Transport {
    match p
    case Address(_) => I2c
    case ChipSelect(_, _) => Spi
    case Port(_) => Uart
  }

  function ParseTransport(s: string): Option<Transport> {
    if s == "i2c" then Some(I2c) else if s == "spi" then Some(Spi)
    else if s == "uart" then Some(Uart) else None
  }

  predicate BusNameOk(t: Transport, name: string) {
    match t
    case I2c => IsName(name) && IsI2cBusName(name)
    case Spi => IsName(name) && IsSpiBusName(name)
    case _ => IsName(name)
  }

  /** normalize_runtime_bus_item, None where it raises. */
  function NormalizeBus(raw: RawBus): Option<ModelBus> {
    if !IsName(raw.id) then None else
    match ParseTransport(raw.transport)
    case None => None
    case Some(t) => if BusNameOk(t, raw.name) then Some(ModelBus(raw.id, t, raw.name)) else None
  }

  function NormalizeBackend(raw: RawBackend): Option<Backend> {
    if raw.kind == "template" then
      if raw.template in {"i2c-register-bank", "spi-script", "uart-script"} then Some(Template(raw.template)) else None
    else if raw.kind == "controller" then
      match raw.worker
      case None => Some(Controller(false))
      case Some(command) =>
        if command != [] && (forall i :: 0 <= i < |command| ==> command[i] != "") then Some(Controller(true)) else None
    else None
  }

  function InRange(v: Option<int>, max: nat): Option<nat> {
    if v.Some? && 0 <= v.value <= max then Some(v.value) else None
  }

  function NormalizeSpi(raw: RawSpi): Option<SpiSettings> {
    if 0 <= raw.mode <= 3 && 1 <= raw.bits <= 32 && raw.maxSpeed >= 1
    then Some(SpiSettings(raw.maxSpeed, raw.mode, raw.bits)) else None
  }

  const NO_SPI: SpiSettings := SpiSettings(0, 0, 0)

  function SpiNode(bus: ModelBus, cs: nat): string
    requires IsSpiBusName(bus.name)
  {
    "spidev" + ToDec(ParseDec(bus.name[3..])) + "." + ToDec(cs)
  }

  function NormalizePlace(raw: RawDevice, bus: ModelBus): Option<(Place, SpiSettings)> {
    match bus.transport
    case I2c =>
      (match InRange(raw.address, 0x7F)
       case None => None
       case Some(a) => Some((Address(a), NO_SPI)))
    case Spi =>
      (match InRange(raw.chipSelect, 255)
       case None => None
       case Some(cs) =>
         if !IsSpiBusName(bus.name) then None else
         var expected := SpiNode(bus, cs);
         var given := if raw.deviceName.Some? then raw.deviceName.value else expected;
         match NormalizeSpi(raw.spi)
         case None => None
         case Some(spi) => if IsName(given) && given == expected then Some((ChipSelect(cs, given), spi)) else None)
    case Uart =>
      var name := if raw.portName.Some? then raw.portName else raw.deviceName;
      if name.Some? && IsPortName(name.value) then Some((Port(name.value), NO_SPI)) else None
    case Virtual => None
  }

  /** normalize_runtime_device_item against the buses by id. */
  function NormalizeDevice(raw: RawDevice, buses: map<string, ModelBus>): Option<ModelDevice> {
    if !IsName(raw.id) || !IsName(raw.bus) || raw.bus !in buses then None
    else if ParseTransport(raw.transport) != Some(buses[raw.bus].transport) then None
    else
      match NormalizeBackend(raw.backend)
      case None => None
      case Some(backend) =>
        match NormalizePlace(raw, buses[raw.bus])
        case None => None
        case Some(placed) => Some(ModelDevice(raw.id, raw.bus, placed.0, backend, placed.1))
  }

  // ---- The rules between items ----

  function BusKey(b: ModelBus): (Transport, string) { (b.transport, b.name) }

  predicate BusesClash(b: ModelBus, c: ModelBus) {
    b.id == c.id || BusKey(b) == BusKey(c)
  }

  /** What two devices may not share: an address or chip select of one bus, or a port name. */
  datatype PlaceKey =
    | AddressKey(bus: string, address: nat)
    | ChipSelectKey(bus: string, cs: nat)
    | PortKey(port: string)

  function Key(d: ModelDevice): PlaceKey {
    match d.place
    case Address(a) => AddressKey(d.bus, a)
    case ChipSelect(cs, _) => ChipSelectKey(d.bus, cs)
    case Port(p) => PortKey(p)
  }

  predicate DevicesClash(d: ModelDevice, e: ModelDevice) {
    d.id == e.id || Key(d) == Key(e)
  }

  function BusMap(buses: seq<ModelBus>): (m: map<string, ModelBus>)
    ensures forall id :: id in m ==> m[id].id == id && m[id] in buses
    ensures forall b :: b in buses ==> b.id in m
  {
    if buses == [] then map[]
    else
      var n := |buses| - 1;
      assert buses == buses[..n] + [buses[n]];
      BusMap(buses[..n])[buses[n].id := buses[n]]
  }

  /** The items are fine one by one and no two of them clash. */
  ghost predicate BusesAccepted(raws: seq<RawBus>, buses: seq<ModelBus>) {
    && |buses| == |raws|
    && (forall i :: 0 <= i < |raws| ==> NormalizeBus(raws[i]) == Some(buses[i]))
    && (forall i, j :: 0 <= i < j < |buses| ==> !BusesClash(buses[i], buses[j]))
  }

  ghost predicate DevicesAccepted(raws: seq<RawDevice>, buses: seq<ModelBus>, devices: seq<ModelDevice>) {
    && |devices| == |raws|
    && (forall i :: 0 <= i < |raws| ==> NormalizeDevice(raws[i], BusMap(buses)) == Some(devices[i]))
    && (forall i, j :: 0 <= i < j < |devices| ==> !DevicesClash(devices[i], devices[j]))
  }

  // ---- What every accepted model satisfies ----

  predicate BusFits(b: ModelBus) {
    IsName(b.id) && b.transport != Virtual && BusNameOk(b.transport, b.name)
  }

  predicate PlaceFits(p: Place, spi: SpiSettings, bus: ModelBus) {
    match p
    case Address(a) => a <= 0x7F && spi == NO_SPI
    case ChipSelect(cs, node) =>
      cs <= 255 && IsSpiBusName(bus.name) && IsName(node) && node == SpiNode(bus, cs) && SpiSettingsOk(spi)
    case Port(port) => IsPortName(port) && spi == NO_SPI
  }

  predicate BackendFits(b: Backend) {
    b.Template? ==> b.name in {"i2c-register-bank", "spi-script", "uart-script"}
  }

  predicate DeviceFits(d: ModelDevice, buses: map<string, ModelBus>) {
    && IsName(d.id) && IsName(d.bus) && d.bus in buses
    && buses[d.bus].transport == PlaceTransport(d.place)
    && PlaceFits(d.place, d.spi, buses[d.bus]) && BackendFits(d.backend)
  }

  ghost predicate WellFormed(buses: seq<ModelBus>, devices: seq<ModelDevice>) {
    && (forall i :: 0 <= i < |buses| ==> BusFits(buses[i]))
    && (forall i, j :: 0 <= i < j < |buses| ==> !BusesClash(buses[i], buses[j]))
    && (forall i :: 0 <= i < |devices| ==> DeviceFits(devices[i], BusMap(buses)))
    && (forall i, j :: 0 <= i < j < |devices| ==> !DevicesClash(devices[i], devices[j]))
  }

  lemma NormalizedBusFits(raw: RawBus)
    ensures NormalizeBus(raw).Some? ==> BusFits(NormalizeBus(raw).value)
  {
  }

  lemma NormalizedDeviceFits(raw: RawDevice, buses: map<string, ModelBus>)
    ensures NormalizeDevice(raw, buses).Some? ==> DeviceFits(NormalizeDevice(raw, buses).value, buses)
  {
    hide IsName, IsPortName, IsSpiBusName;
  }

  /** Whatever normalisation accepts is well formed. */
  lemma AcceptedIsWellFormed(rb: seq<RawBus>, rd: seq<RawDevice>, buses: seq<ModelBus>, devices: seq<ModelDevice>)
    requires BusesAccepted(rb, buses) && DevicesAccepted(rd, buses, devices)
    ensures WellFormed(buses, devices)
  {
    hide NormalizeBus, NormalizeDevice, BusFits, DeviceFits, BusesClash, DevicesClash;
    forall i | 0 <= i < |buses|
      ensures BusFits(buses[i])
    {
      NormalizedBusFits(rb[i]);
    }
    forall i | 0 <= i < |devices|
      ensures DeviceFits(devices[i], BusMap(buses))
    {
      NormalizedDeviceFits(rd[i], BusMap(buses));
    }
  }

  // ---- Exporting a model and normalising it again ----

  function TransportName(t: Transport): string {
    match t
    case I2c => "i2c"
    case Spi => "spi"
    case Uart => "uart"
    case Virtual => ""
  }

  function ExportBus(b: ModelBus): RawBus {
    RawBus(b.id, TransportName(b.transport), b.name)
  }

  function ExportBackend(b: Backend): RawBackend {
    match b
    case Template(name) => RawBackend("template", name, None)
    case Controller(worker) => RawBackend("controller", "", if worker then Some(["run"]) else None)
  }

  function ExportDevice(d: ModelDevice): RawDevice {
    RawDevice(d.id, d.bus, TransportName(PlaceTransport(d.place)), ExportBackend(d.backend),
              if d.place.Address? then Some(d.place.address) else None,
              if d.place.ChipSelect? then Some(d.place.cs) else None,
              if d.place.ChipSelect? then Some(d.place.node) else None,
              if d.place.Port? then Some(d.place.port) else None,
              RawSpi(d.spi.mode, d.spi.bits, d.spi.maxSpeed))
  }

  lemma ExportedBusNormalizes(b: ModelBus)
    requires BusFits(b)
    ensures NormalizeBus(ExportBus(b)) == Some(b)
  {
    hide BusNameOk;
  }

  lemma ExportedDeviceNormalizes(d: ModelDevice, buses: map<string, ModelBus>)
    requires DeviceFits(d, buses)
    ensures NormalizeDevice(ExportDevice(d), buses) == Some(d)
  {
    hide IsName, IsPortName, IsSpiBusName, SpiNode;
  }

  /** A snapshot of a well-formed inventory is accepted again, unchanged. */
  lemma ExportRoundTrips(buses: seq<ModelBus>, devices: seq<ModelDevice>)
    requires WellFormed(buses, devices)
    ensures BusesAccepted(seq(|buses|, i requires 0 <= i < |buses| => ExportBus(buses[i])), buses)
    ensures DevicesAccepted(seq(|devices|, i requires 0 <= i < |devices| => ExportDevice(devices[i])), buses, devices)
  {
    hide NormalizeBus, NormalizeDevice, BusFits, DeviceFits, BusesClash, DevicesClash, ExportBus, ExportDevice;
    forall i | 0 <= i < |buses|
      ensures NormalizeBus(ExportBus(buses[i])) == Some(buses[i])
    {
      ExportedBusNormalizes(buses[i]);
    }
    forall i | 0 <= i < |devices|
      ensures NormalizeDevice(ExportDevice(devices[i]), BusMap(buses)) == Some(devices[i])
    {
      ExportedDeviceNormalizes(devices[i], BusMap(buses));
    }
  }

  // ---- The loops ----

  lemma ClashingBusIsFatal(raws: seq<RawBus>, i: nat, j: nat, before: seq<ModelBus>, bus: ModelBus)
    requires j < i < |raws| && BusesAccepted(raws[..i], before)
    requires NormalizeBus(raws[i]) == Some(bus) && BusesClash(before[j], bus)
    ensures !exists all :: BusesAccepted(raws, all)
  {
    hide NormalizeBus, BusesClash;
    assert raws[..i][j] == raws[j];
    assert NormalizeBus(raws[j]) == Some(before[j]);
  }

  lemma ClashingDeviceIsFatal(raws: seq<RawDevice>, buses: seq<ModelBus>, i: nat, j: nat,
                              before: seq<ModelDevice>, dev: ModelDevice)
    requires j < i < |raws| && DevicesAccepted(raws[..i], buses, before)
    requires NormalizeDevice(raws[i], BusMap(buses)) == Some(dev) && DevicesClash(before[j], dev)
    ensures !exists all :: DevicesAccepted(raws, buses, all)
  {
    hide NormalizeDevice, DevicesClash, BusMap;
    assert raws[..i][j] == raws[j];
    assert NormalizeDevice(raws[j], BusMap(buses)) == Some(before[j]);
  }

  /**
   The bus loop of normalize_runtime_model_data: it rejects on the first duplicate id or duplicate
   name of a transport, tracked in sets.
   */
  method NormalizeBuses(raws: seq<RawBus>) returns (r: Option<seq<ModelBus>>)
    ensures r.Some? ==> BusesAccepted(raws, r.value)
    ensures r.None? ==> !exists buses :: BusesAccepted(raws, buses)
  {
    hide NormalizeBus, BusKey;
    var buses: seq<ModelBus> := [];
    var ids: set<string> := {};
    var names: set<(Transport, string)> := {};
    var i := 0;
    while i < |raws|
      invariant i <= |raws| && BusesAccepted(raws[..i], buses)
      invariant forall id :: id in ids <==> exists j :: 0 <= j < i && buses[j].id == id
      invariant forall k :: k in names <==> exists j :: 0 <= j < i && BusKey(buses[j]) == k
    {
      var item := NormalizeBus(raws[i]);
      if item.None? {
        return None;
      }
      var bus := item.value;
      if bus.id in ids || BusKey(bus) in names {
        ghost var j :| 0 <= j < i && BusesClash(buses[j], bus);
        ClashingBusIsFatal(raws, i, j, buses, bus);
        return None;
      }
      ids := ids + {bus.id};
      names := names + {BusKey(bus)};
      buses := buses + [bus];
      assert raws[..i + 1] == raws[..i] + [raws[i]];
      i := i + 1;
    }
    assert raws[..i] == raws;
    return Some(buses);
  }

  /** The device loop; its per-bus address and chip-select sets and its port set are one set of keys. */
  method NormalizeDevices(raws: seq<RawDevice>, buses: seq<ModelBus>) returns (r: Option<seq<ModelDevice>>)
    ensures r.Some? ==> DevicesAccepted(raws, buses, r.value)
    ensures r.None? ==> !exists devices :: DevicesAccepted(raws, buses, devices)
  {
    hide NormalizeDevice, BusMap, Key;
    var byId := BusMap(buses);
    var devices: seq<ModelDevice> := [];
    var ids: set<string> := {};
    var keys: set<PlaceKey> := {};
    var i := 0;
    while i < |raws|
      invariant i <= |raws| && DevicesAccepted(raws[..i], buses, devices)
      invariant forall id :: id in ids <==> exists j :: 0 <= j < i && devices[j].id == id
      invariant forall k :: k in keys <==> exists j :: 0 <= j < i && Key(devices[j]) == k
    {
      var item := NormalizeDevice(raws[i], byId);
      if item.None? {
        return None;
      }
      var dev := item.value;
      if dev.id in ids || Key(dev) in keys {
        ghost var j :| 0 <= j < i && DevicesClash(devices[j], dev);
        ClashingDeviceIsFatal(raws, buses, i, j, devices, dev);
        return None;
      }
      ids := ids + {dev.id};
      keys := keys + {Key(dev)};
      devices := devices + [dev];
      assert raws[..i + 1] == raws[..i] + [raws[i]];
      i := i + 1;
    }
    assert raws[..i] == raws;
    return Some(devices);
  }

  // ---- Forms a device may be written in ----

  /** A UART device may give its port as the device name; a port name given as well is the one that counts. */
  lemma {:induction false} PortMayBeDeviceName(raw: RawDevice, buses: map<string, ModelBus>, port: string)
    requires raw.bus in buses && buses[raw.bus].transport == Uart
    ensures
      NormalizeDevice(raw.(portName := None, deviceName := Some(port)), buses)
        == NormalizeDevice(raw.(portName := Some(port)), buses)
    ensures NormalizeDevice(raw.(portName := None, deviceName := None), buses).None?
  {
    hide IsPortName, IsName, NormalizeBackend, ParseTransport;
  }

  /** A canonical port name is taken as it is, any other refused. */
  lemma {:induction false} PortIsTaken(raw: RawDevice, buses: map<string, ModelBus>, port: string)
    requires raw.bus in buses && buses[raw.bus].transport == Uart && raw.portName == Some(port)
    requires IsName(raw.id) && IsName(raw.bus) && raw.transport == "uart" && NormalizeBackend(raw.backend).Some?
    ensures
      NormalizeDevice(raw, buses)
        == if IsPortName(port) then
             Some(ModelDevice(raw.id, raw.bus, Port(port), NormalizeBackend(raw.backend).value, NO_SPI))
           else None
  {
    hide IsPortName, IsName, NormalizeBackend;
  }

  /** An SPI device may leave its node name out; the only other way to write it is the very name it gets. */
  lemma {:induction false} NodeNameIsImplied(raw: RawDevice, buses: map<string, ModelBus>, name: string)
    requires raw.bus in buses && buses[raw.bus].transport == Spi && IsSpiBusName(buses[raw.bus].name)
    requires raw.chipSelect.Some? && 0 <= raw.chipSelect.value <= 255
    ensures
      var node := "spidev" + ToDec(ParseDec(buses[raw.bus].name[3..])) + "." + ToDec(raw.chipSelect.value);
      && NormalizeDevice(raw.(deviceName := None), buses) == NormalizeDevice(raw.(deviceName := Some(node)), buses)
      && (name != node ==> NormalizeDevice(raw.(deviceName := Some(name)), buses).None?)
  {
    hide IsSpiBusName, IsName, NormalizeBackend, ParseTransport, ToDec, ParseDec, NormalizeSpi;
  }
}
