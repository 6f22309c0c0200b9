/** The structured snapshot of a Victron installation: lists of devices that grow when an
    instance first reports, with one cell per reported quantity. Values are reals. */
module VictronSnapshot {
  import opened Outcomes

  datatype Service =
    | BatteryService | SolarChargerService | PvInverterService | AcLoadService | DcLoadService | VebusService
    | TemperatureService | TankService | SystemService | UnstructuredService(name: string)

  datatype Phase = L1 | L2 | L3

  /** The paths a handler reacts to, and every other one. */
  datatype Path =
    | Dc0Voltage | Dc0Current | Dc0Power | SocPath | TemperaturePath | YieldPower
    | Ac0Voltage | Ac0Current | Ac0Power
    | AcState | AcOutP | AcActiveInL1V | AcActiveInL1I | AcActiveInConnected | AcActiveInActiveInput
    | AcGridPower(grid: Phase) | AcConsumptionPower(consumption: Phase)
    | DcBatterySoc | DcBatteryPower | DcPvPower | AcActiveInSource
    | OtherPath(text: string)

  datatype Telemetry = Telemetry(portalId: string, service: Service, instance: int, path: Path, value: real, topic: string)

  /** A device of a list under its instance number. */
  datatype Entry<R> = Entry(instance: int, data: R)

  datatype BatteryData = BatteryData(voltage: real, current: real, power: real, soc: real, temperature: real)
  datatype SolarChargerData = SolarChargerData(power: real, voltage: real, current: real)
  datatype PvInverterData = PvInverterData(power: real)
  datatype LoadData = LoadData(power: real, voltage: real, current: real)
  datatype VebusData = VebusData(
    state: real, power: real, activeInVoltage: real, activeInCurrent: real,
    activeInConnected: Option<bool>, activeInput: Option<real>)
  datatype SystemData = SystemData(
    gridL1Power: real, gridL2Power: real, gridL3Power: real,
    consumptionL1Power: real, consumptionL2Power: real, consumptionL3Power: real,
    batterySoc: real, batteryPower: real, pvPower: real,
    acActiveInSource: Option<real>)

  const NO_BATTERY := BatteryData(0.0, 0.0, 0.0, 0.0, 0.0)
  const NO_SOLAR := SolarChargerData(0.0, 0.0, 0.0)
  const NO_LOAD := LoadData(0.0, 0.0, 0.0)
  const NO_VEBUS := VebusData(0.0, 0.0, 0.0, 0.0, None, None)
  const NO_SYSTEM := SystemData(0.0, 0.0, 0.0, 0.0, 0.0, 0.0, 0.0, 0.0, 0.0, None)

  datatype Snapshot = Snapshot(
    portalId: string,
    batteries: seq<Entry<BatteryData>>,
    solarChargers: seq<Entry<SolarChargerData>>,
    pvInverters: seq<Entry<PvInverterData>>,
    acLoads: seq<Entry<LoadData>>,
    dcLoads: seq<Entry<LoadData>>,
    vebus: seq<Entry<VebusData>>,
    temperatures: seq<Entry<real>>,
    tanks: seq<Entry<real>>,
    system: SystemData,
    raw: map<string, real>)

  const EMPTY_SNAPSHOT := Snapshot("", [], [], [], [], [], [], [], [], NO_SYSTEM, map[])

  // ---- Writing one quantity of a device ----

  function WriteBattery(b: BatteryData, path: Path, v: real): BatteryData {
    match path
    case Dc0Voltage => b.(voltage := v)
    case Dc0Current => b.(current := v)
    case Dc0Power => b.(power := v)
    case SocPath => b.(soc := v)
    case TemperaturePath => b.(temperature := v)
    case _ => b
  }

  function WriteSolar(s: SolarChargerData, path: Path, v: real): SolarChargerData {
    match path
    case Dc0Power => s.(power := v)
    case Dc0Voltage => s.(voltage := v)
    case Dc0Current => s.(current := v)
    case YieldPower => s.(power := v)
    case _ => s
  }

  function WriteAcLoad(l: LoadData, path: Path, v: real): LoadData {
    match path
    case Ac0Power => l.(power := v)
    case Ac0Voltage => l.(voltage := v)
    case Ac0Current => l.(current := v)
    case _ => l
  }

  function WriteDcLoad(l: LoadData, path: Path, v: real): LoadData {
    match path
    case Dc0Power => l.(power := v)
    case Dc0Voltage => l.(voltage := v)
    case Dc0Current => l.(current := v)
    case _ => l
  }

  function WriteVebus(d: VebusData, path: Path, v: real): VebusData {
    match path
    case AcState => d.(state := v)
    case AcOutP => d.(power := v)
    case AcActiveInL1V => d.(activeInVoltage := v)
    case AcActiveInL1I => d.(activeInCurrent := v)
    case AcActiveInConnected => d.(activeInConnected := Some(v > 0.0))
    case AcActiveInActiveInput => d.(activeInput := Some(v))
    case _ => d
  }

  function WriteSystem(s: SystemData, path: Path, v: real): SystemData {
    match path
    case AcGridPower(L1) => s.(gridL1Power := v)
    case AcGridPower(L2) => s.(gridL2Power := v)
    case AcGridPower(L3) => s.(gridL3Power := v)
    case AcConsumptionPower(L1) => s.(consumptionL1Power := v)
    case AcConsumptionPower(L2) => s.(consumptionL2Power := v)
    case AcConsumptionPower(L3) => s.(consumptionL3Power := v)
    case DcBatterySoc => s.(batterySoc := v)
    case DcBatteryPower => s.(batteryPower := v)
    case DcPvPower => s.(pvPower := v)
    case AcActiveInSource => s.(acActiveInSource := Some(v))
    case _ => s
  }

  // ---- Lists of devices ----

  function Instances<R>(list: seq<Entry<R>>): (ids: seq<int>)
    ensures |ids| == |list| && forall i :: 0 <= i < |list| ==> ids[i] == list[i].instance
  {
    if list == [] then [] else Instances(list[..|list| - 1]) + [list[|list| - 1].instance]
  }

  // The device an instance has, which is the first entry under its number, or else `none`.
  function Lookup<R>(list: seq<Entry<R>>, instance: int, none: R): R {
    if list == [] then none
    else if list[0].instance == instance then list[0].data
    else Lookup(list[1..], instance, none)
  }

  /** Changes the first entry of an instance, or appends a changed blank one. */
  function Upsert<R>(list: seq<Entry<R>>, instance: int, none: R, write: R -> R): seq<Entry<R>> {
    if list == [] then [Entry(instance, write(none))]
    else if list[0].instance == instance then [Entry(instance, write(list[0].data))] + list[1..]
    else [list[0]] + Upsert(list[1..], instance, none, write)
  }

  /** A write is read back at its instance and nowhere else. */
  lemma {:induction false} LookupUpsert<R>(list: seq<Entry<R>>, instance: int, none: R, write: R -> R, other: int)
    ensures Lookup(Upsert(list, instance, none, write), other, none)
         == if other == instance then write(Lookup(list, instance, none)) else Lookup(list, other, none)
  {
    if list == [] {
    } else if list[0].instance == instance {
      assert ([Entry(instance, write(list[0].data))] + list[1..])[1..] == list[1..];
    } else {
      LookupUpsert(list[1..], instance, none, write, other);
      assert ([list[0]] + Upsert(list[1..], instance, none, write))[1..] == Upsert(list[1..], instance, none, write);
    }
  }

  /** An instance is added at the end when it is new, and the order never changes. */
  lemma {:induction false} InstancesUpsert<R>(list: seq<Entry<R>>, instance: int, none: R, write: R -> R)
    ensures Instances(Upsert(list, instance, none, write))
         == if instance in Instances(list) then Instances(list) else Instances(list) + [instance]
  {
    hide Instances;
    if list == [] {
    } else if list[0].instance == instance {
      assert Instances(list)[0] == instance;
      assert Instances(Upsert(list, instance, none, write)) == Instances(list);
    } else {
      var rest := list[1..];
      InstancesUpsert(rest, instance, none, write);
      InstancesCons(list[0], rest);
      InstancesCons(list[0], Upsert(rest, instance, none, write));
      assert [list[0]] + rest == list;
    }
  }

  lemma InstancesCons<R>(first: Entry<R>, rest: seq<Entry<R>>)
    ensures Instances([first] + rest) == [first.instance] + Instances(rest)
  {
    hide Instances;
  }

  lemma {:induction false} UpsertHit<R>(list: seq<Entry<R>>, instance: int, none: R, write: R -> R, i: nat)
    requires i < |list| && list[i].instance == instance
    requires forall k :: 0 <= k < i ==> list[k].instance != instance
    ensures Upsert(list, instance, none, write) == list[i := Entry(instance, write(list[i].data))]
  {
    if i > 0 {
      UpsertHit(list[1..], instance, none, write, i - 1);
    }
  }

  lemma {:induction false} UpsertMiss<R>(list: seq<Entry<R>>, instance: int, none: R, write: R -> R)
    requires forall k :: 0 <= k < |list| ==> list[k].instance != instance
    ensures Upsert(list, instance, none, write) == list + [Entry(instance, write(none))]
  {
    if list != [] {
      UpsertMiss(list[1..], instance, none, write);
    }
  }

  // Appending a blank entry first makes no difference.
  lemma UpsertAfterBlank<R>(list: seq<Entry<R>>, instance: int, none: R, write: R -> R)
    requires forall k :: 0 <= k < |list| ==> list[k].instance != instance
    ensures Upsert(list + [Entry(instance, none)], instance, none, write) == Upsert(list, instance, none, write)
  {
    UpsertMiss(list, instance, none, write);
    UpsertHit(list + [Entry(instance, none)], instance, none, write, |list|);
  }

  // ---- The effect of one message ----

  function BatteryWriter(t: Telemetry): BatteryData -> BatteryData {
    b => WriteBattery(b, t.path, t.value)
  }

  function SolarWriter(t: Telemetry): SolarChargerData -> SolarChargerData {
    s => WriteSolar(s, t.path, t.value)
  }

  function AcLoadWriter(t: Telemetry): LoadData -> LoadData {
    l => WriteAcLoad(l, t.path, t.value)
  }

  function DcLoadWriter(t: Telemetry): LoadData -> LoadData {
    l => WriteDcLoad(l, t.path, t.value)
  }

  function VebusWriter(t: Telemetry): VebusData -> VebusData {
    d => WriteVebus(d, t.path, t.value)
  }

  function ReadingWriter(t: Telemetry): real -> real {
    _ => t.value
  }

  function Structured(s: Snapshot, t: Telemetry): Snapshot {
    match t.service
    case BatteryService => s.(batteries := Upsert(s.batteries, t.instance, NO_BATTERY, BatteryWriter(t)))
    case SolarChargerService => s.(solarChargers := Upsert(s.solarChargers, t.instance, NO_SOLAR, SolarWriter(t)))
    case PvInverterService => s.(solarChargers := Upsert(s.solarChargers, t.instance, NO_SOLAR, SolarWriter(t)))
    case AcLoadService => s.(acLoads := Upsert(s.acLoads, t.instance, NO_LOAD, AcLoadWriter(t)))
    case DcLoadService => s.(dcLoads := Upsert(s.dcLoads, t.instance, NO_LOAD, DcLoadWriter(t)))
    case VebusService => s.(vebus := Upsert(s.vebus, t.instance, NO_VEBUS, VebusWriter(t)))
    case TemperatureService => s.(temperatures := Upsert(s.temperatures, t.instance, 0.0, ReadingWriter(t)))
    case TankService => s.(tanks := Upsert(s.tanks, t.instance, 0.0, ReadingWriter(t)))
    case SystemService => s.(system := WriteSystem(s.system, t.path, t.value))
    case UnstructuredService(_) => s
  }

  function Updated(s: Snapshot, t: Telemetry): Snapshot {
    Structured(s.(raw := s.raw[t.topic := t.value], portalId := t.portalId), t)
  }

  // The snapshot after a whole history.
  function After(history: seq<Telemetry>): Snapshot {
    if history == [] then EMPTY_SNAPSHOT
    else Updated(After(history[..|history| - 1]), history[|history| - 1])
  }

  // ---- Cells ----

  datatype DeviceList = Batteries | SolarChargers | AcLoads | DcLoads | VebusDevices | Temperatures | Tanks

  datatype Quantity =
    | Voltage | Current | Power | Soc | Temperature | State
    | ActiveInVoltage | ActiveInCurrent | ActiveInConnected | ActiveInput | Level

  datatype Total =
    | Grid(gridPhase: Phase) | Consumption(phase: Phase)
    | BatterySocTotal | BatteryPowerTotal | PvPowerTotal | ActiveInSourceTotal

  /** A structured field of the snapshot. */
  datatype Cell = DeviceCell(list: DeviceList, instance: int, quantity: Quantity) | SystemCell(total: Total)

  /** The list a service's devices are kept in; solar chargers and PV inverters share one. */
  function ListOf(service: Service): Option<DeviceList> {
    match service
    case BatteryService => Some(Batteries)
    case SolarChargerService => Some(SolarChargers)
    case PvInverterService => Some(SolarChargers)
    case AcLoadService => Some(AcLoads)
    case DcLoadService => Some(DcLoads)
    case VebusService => Some(VebusDevices)
    case TemperatureService => Some(Temperatures)
    case TankService => Some(Tanks)
    case SystemService => None
    case UnstructuredService(_) => None
  }

  /** What a path means for a device of a list; battery power and solar yield are both power. */
  function QuantityOf(list: DeviceList, path: Path): Option<Quantity> {
    match list
    case Batteries =>
      (match path
       case Dc0Voltage => Some(Voltage) case Dc0Current => Some(Current) case Dc0Power => Some(Power)
       case SocPath => Some(Soc) case TemperaturePath => Some(Temperature) case _ => None)
    case SolarChargers =>
      (match path
       case Dc0Voltage => Some(Voltage) case Dc0Current => Some(Current) case Dc0Power => Some(Power)
       case YieldPower => Some(Power) case _ => None)
    case AcLoads =>
      (match path
       case Ac0Voltage => Some(Voltage) case Ac0Current => Some(Current) case Ac0Power => Some(Power) case _ => None)
    case DcLoads =>
      (match path
       case Dc0Voltage => Some(Voltage) case Dc0Current => Some(Current) case Dc0Power => Some(Power) case _ => None)
    case VebusDevices =>
      (match path
       case AcState => Some(State) case AcOutP => Some(Power)
       case AcActiveInL1V => Some(ActiveInVoltage) case AcActiveInL1I => Some(ActiveInCurrent)
       case AcActiveInConnected => Some(ActiveInConnected) case AcActiveInActiveInput => Some(ActiveInput) case _ => None)
    case Temperatures => Some(Temperature)
    case Tanks => Some(Level)
  }

  function TotalOf(path: Path): Option<Total> {
    match path
    case AcGridPower(p) => Some(Grid(p))
    case AcConsumptionPower(p) => Some(Consumption(p))
    case DcBatterySoc => Some(BatterySocTotal)
    case DcBatteryPower => Some(BatteryPowerTotal)
    case DcPvPower => Some(PvPowerTotal)
    case AcActiveInSource => Some(ActiveInSourceTotal)
    case _ => None
  }

  /** The cell a message writes, if any. */
  function CellOf(t: Telemetry): Option<Cell> {
    if t.service.SystemService? then
      (match TotalOf(t.path) case Some(total) => Some(SystemCell(total)) case None => None)
    else
      match ListOf(t.service)
      case None => None
      case Some(list) =>
        match QuantityOf(list, t.path)
        case Some(q) => Some(DeviceCell(list, t.instance, q))
        case None => None
  }

  /** The last value a history writes to a cell. */
  function LastValue(history: seq<Telemetry>, cell: Cell): Option<real> {
    if history == [] then None
    else if CellOf(history[|history| - 1]) == Some(cell) then Some(history[|history| - 1].value)
    else LastValue(history[..|history| - 1], cell)
  }

  /** What a field shows: a number, or a number or flag that may be unknown. */
  datatype Shown = Number(number: real) | MaybeNumber(maybe: Option<real>) | MaybeFlag(flag: Option<bool>) | Nothing

  // What a field shows when the last value written to its cell is `last`; an unwritten number shows 0.
  function ShownFor(cell: Cell, last: Option<real>): Shown {
    if cell.DeviceCell? && cell.quantity.ActiveInConnected? then
      MaybeFlag(match last case Some(v) => Some(v > 0.0) case None => None)
    else if (cell.DeviceCell? && cell.quantity.ActiveInput?) || (cell.SystemCell? && cell.total.ActiveInSourceTotal?) then
      MaybeNumber(last)
    else
      Number(match last case Some(v) => v case None => 0.0)
  }

  // The field of a snapshot that a cell names; a device that is not listed shows blanks.
  function Show(s: Snapshot, cell: Cell): Shown {
    match cell
    case SystemCell(total) => ShowSystem(s.system, total)
    case DeviceCell(list, instance, q) =>
      match list
      case Batteries => ShowBattery(Lookup(s.batteries, instance, NO_BATTERY), q)
      case SolarChargers => ShowSolar(Lookup(s.solarChargers, instance, NO_SOLAR), q)
      case AcLoads => ShowLoad(Lookup(s.acLoads, instance, NO_LOAD), q)
      case DcLoads => ShowLoad(Lookup(s.dcLoads, instance, NO_LOAD), q)
      case VebusDevices => ShowVebus(Lookup(s.vebus, instance, NO_VEBUS), q)
      case Temperatures => if q.Temperature? then Number(Lookup(s.temperatures, instance, 0.0)) else Nothing
      case Tanks => if q.Level? then Number(Lookup(s.tanks, instance, 0.0)) else Nothing
  }

  function ShowBattery(b: BatteryData, q: Quantity): Shown {
    match q
    case Voltage => Number(b.voltage) case Current => Number(b.current) case Power => Number(b.power)
    case Soc => Number(b.soc) case Temperature => Number(b.temperature) case _ => Nothing
  }

  function ShowSolar(s: SolarChargerData, q: Quantity): Shown {
    match q
    case Voltage => Number(s.voltage) case Current => Number(s.current) case Power => Number(s.power) case _ => Nothing
  }

  function ShowLoad(l: LoadData, q: Quantity): Shown {
    match q
    case Voltage => Number(l.voltage) case Current => Number(l.current) case Power => Number(l.power) case _ => Nothing
  }

  function ShowVebus(d: VebusData, q: Quantity): Shown {
    match q
    case State => Number(d.state) case Power => Number(d.power)
    case ActiveInVoltage => Number(d.activeInVoltage) case ActiveInCurrent => Number(d.activeInCurrent)
    case ActiveInConnected => MaybeFlag(d.activeInConnected) case ActiveInput => MaybeNumber(d.activeInput)
    case _ => Nothing
  }

  function ShowSystem(s: SystemData, total: Total): Shown {
    match total
    case Grid(L1) => Number(s.gridL1Power)
    case Grid(L2) => Number(s.gridL2Power)
    case Grid(L3) => Number(s.gridL3Power)
    case Consumption(L1) => Number(s.consumptionL1Power)
    case Consumption(L2) => Number(s.consumptionL2Power)
    case Consumption(L3) => Number(s.consumptionL3Power)
    case BatterySocTotal => Number(s.batterySoc)
    case BatteryPowerTotal => Number(s.batteryPower)
    case PvPowerTotal => Number(s.pvPower)
    case ActiveInSourceTotal => MaybeNumber(s.acActiveInSource)
  }

  predicate IsField(cell: Cell) {
    Show(EMPTY_SNAPSHOT, cell) != Nothing
  }

  // ---- Refinement ----

  lemma BatteryWritten(b: BatteryData, path: Path, v: real, instance: int, q: Quantity)
    ensures ShowBattery(WriteBattery(b, path, v), q)
         == if QuantityOf(Batteries, path) == Some(q) then ShownFor(DeviceCell(Batteries, instance, q), Some(v))
            else ShowBattery(b, q)
  {
  }

  lemma SolarWritten(s: SolarChargerData, path: Path, v: real, instance: int, q: Quantity)
    ensures ShowSolar(WriteSolar(s, path, v), q)
         == if QuantityOf(SolarChargers, path) == Some(q) then ShownFor(DeviceCell(SolarChargers, instance, q), Some(v))
            else ShowSolar(s, q)
  {
  }

  lemma AcLoadWritten(l: LoadData, path: Path, v: real, instance: int, q: Quantity)
    ensures ShowLoad(WriteAcLoad(l, path, v), q)
         == if QuantityOf(AcLoads, path) == Some(q) then ShownFor(DeviceCell(AcLoads, instance, q), Some(v))
            else ShowLoad(l, q)
  {
  }

  lemma DcLoadWritten(l: LoadData, path: Path, v: real, instance: int, q: Quantity)
    ensures ShowLoad(WriteDcLoad(l, path, v), q)
         == if QuantityOf(DcLoads, path) == Some(q) then ShownFor(DeviceCell(DcLoads, instance, q), Some(v))
            else ShowLoad(l, q)
  {
  }

  lemma VebusWritten(d: VebusData, path: Path, v: real, instance: int, q: Quantity)
    ensures ShowVebus(WriteVebus(d, path, v), q)
         == if QuantityOf(VebusDevices, path) == Some(q) then ShownFor(DeviceCell(VebusDevices, instance, q), Some(v))
            else ShowVebus(d, q)
  {
  }

  lemma SystemWritten(s: SystemData, path: Path, v: real, total: Total)
    ensures ShowSystem(WriteSystem(s, path, v), total)
         == if TotalOf(path) == Some(total) then ShownFor(SystemCell(total), Some(v)) else ShowSystem(s, total)
  {
  }

  // A message to the list of a device cell, which stays the same at every other instance.
  lemma DeviceUpdated(s: Snapshot, t: Telemetry, cell: Cell)
    requires cell.DeviceCell? && ListOf(t.service) == Some(cell.list)
    ensures Show(Structured(s, t), cell) == if CellOf(t) == Some(cell) then ShownFor(cell, Some(t.value)) else Show(s, cell)
  {
    hide Lookup, Upsert, ShowBattery, ShowSolar, ShowLoad, ShowVebus, ShowSystem;
    hide WriteBattery, WriteSolar, WriteAcLoad, WriteDcLoad, WriteVebus, WriteSystem;
    var at, q := cell.instance, cell.quantity;
    match cell.list {
      case Batteries =>
        LookupUpsert(s.batteries, t.instance, NO_BATTERY, BatteryWriter(t), at);
        BatteryWritten(Lookup(s.batteries, at, NO_BATTERY), t.path, t.value, at, q);
      case SolarChargers =>
        LookupUpsert(s.solarChargers, t.instance, NO_SOLAR, SolarWriter(t), at);
        SolarWritten(Lookup(s.solarChargers, at, NO_SOLAR), t.path, t.value, at, q);
      case AcLoads =>
        LookupUpsert(s.acLoads, t.instance, NO_LOAD, AcLoadWriter(t), at);
        AcLoadWritten(Lookup(s.acLoads, at, NO_LOAD), t.path, t.value, at, q);
      case DcLoads =>
        LookupUpsert(s.dcLoads, t.instance, NO_LOAD, DcLoadWriter(t), at);
        DcLoadWritten(Lookup(s.dcLoads, at, NO_LOAD), t.path, t.value, at, q);
      case VebusDevices =>
        LookupUpsert(s.vebus, t.instance, NO_VEBUS, VebusWriter(t), at);
        VebusWritten(Lookup(s.vebus, at, NO_VEBUS), t.path, t.value, at, q);
      case Temperatures => LookupUpsert(s.temperatures, t.instance, 0.0, ReadingWriter(t), at);
      case Tanks => LookupUpsert(s.tanks, t.instance, 0.0, ReadingWriter(t), at);
    }
  }

  // A message changes the field of its cell to show its value, and no other field.
  lemma ShowUpdated(s: Snapshot, t: Telemetry, cell: Cell)
    ensures Show(Updated(s, t), cell) == if CellOf(t) == Some(cell) then ShownFor(cell, Some(t.value)) else Show(s, cell)
  {
    hide Lookup, Upsert, ShowBattery, ShowSolar, ShowLoad, ShowVebus, ShowSystem, WriteSystem, TotalOf, QuantityOf, ShownFor;
    var received := s.(raw := s.raw[t.topic := t.value], portalId := t.portalId);
    if cell.DeviceCell? && ListOf(t.service) == Some(cell.list) {
      hide Structured, CellOf;
      DeviceUpdated(received, t, cell);
    } else if cell.SystemCell? {
      SystemWritten(s.system, t.path, t.value, cell.total);
    }
  }

  /** After any history every structured field shows the last value written to its cell, or its default. */
  lemma {:induction false} SnapshotShowsLastValues(history: seq<Telemetry>, cell: Cell)
    requires IsField(cell)
    ensures Show(After(history), cell) == ShownFor(cell, LastValue(history, cell))
  {
    hide Updated, Show;
    if history == [] {
      EmptyShowsDefaults(cell);
    } else {
      var before := history[..|history| - 1];
      SnapshotShowsLastValues(before, cell);
      ShowUpdated(After(before), history[|history| - 1], cell);
    }
  }

  lemma EmptyShowsDefaults(cell: Cell)
    requires IsField(cell)
    ensures Show(EMPTY_SNAPSHOT, cell) == ShownFor(cell, None)
  {
  }

  /** The instances a history mentions for a list, in the order of their first message. */
  function FirstAppearances(history: seq<Telemetry>, list: DeviceList): seq<int> {
    if history == [] then []
    else
      var before := FirstAppearances(history[..|history| - 1], list);
      var t := history[|history| - 1];
      if ListOf(t.service) == Some(list) && t.instance !in before then before + [t.instance] else before
  }

  function ListedInstances(s: Snapshot, list: DeviceList): seq<int> {
    match list
    case Batteries => Instances(s.batteries)
    case SolarChargers => Instances(s.solarChargers)
    case AcLoads => Instances(s.acLoads)
    case DcLoads => Instances(s.dcLoads)
    case VebusDevices => Instances(s.vebus)
    case Temperatures => Instances(s.temperatures)
    case Tanks => Instances(s.tanks)
  }

  predicate Distinct(ids: seq<int>) {
    forall i, j :: 0 <= i < j < |ids| ==> ids[i] != ids[j]
  }

  lemma InstancesUpdated(s: Snapshot, t: Telemetry, list: DeviceList)
    ensures ListedInstances(Updated(s, t), list) ==
            if ListOf(t.service) == Some(list) && t.instance !in ListedInstances(s, list)
            then ListedInstances(s, list) + [t.instance] else ListedInstances(s, list)
  {
    hide Upsert, Instances, WriteSystem;
    if ListOf(t.service) == Some(list) {
      match list {
        case Batteries => InstancesUpsert(s.batteries, t.instance, NO_BATTERY, BatteryWriter(t));
        case SolarChargers => InstancesUpsert(s.solarChargers, t.instance, NO_SOLAR, SolarWriter(t));
        case AcLoads => InstancesUpsert(s.acLoads, t.instance, NO_LOAD, AcLoadWriter(t));
        case DcLoads => InstancesUpsert(s.dcLoads, t.instance, NO_LOAD, DcLoadWriter(t));
        case VebusDevices => InstancesUpsert(s.vebus, t.instance, NO_VEBUS, VebusWriter(t));
        case Temperatures => InstancesUpsert(s.temperatures, t.instance, 0.0, ReadingWriter(t));
        case Tanks => InstancesUpsert(s.tanks, t.instance, 0.0, ReadingWriter(t));
      }
    }
  }

  /** Each list holds every instance it was told about exactly once, in the order of first appearance;
      the list of PV inverters stays empty. */
  lemma {:induction false} ListsInOrderOfAppearance(history: seq<Telemetry>, list: DeviceList)
    ensures ListedInstances(After(history), list) == FirstAppearances(history, list)
    ensures Distinct(FirstAppearances(history, list))
    ensures After(history).pvInverters == []
  {
    hide ListedInstances;
    if history == [] {
      NothingListed(list);
    } else {
      var before := history[..|history| - 1];
      ListsInOrderOfAppearance(before, list);
      InstancesUpdated(After(before), history[|history| - 1], list);
    }
  }

  lemma NothingListed(list: DeviceList)
    ensures ListedInstances(EMPTY_SNAPSHOT, list) == []
  {
  }

  /** The raw values show the last message of each topic, and the portal is that of the last message. */
  lemma {:induction false} RawShowsLastMessages(history: seq<Telemetry>, topic: string)
    ensures topic in After(history).raw <==> exists i :: 0 <= i < |history| && history[i].topic == topic
    ensures forall i :: (0 <= i < |history| && history[i].topic == topic
                         && forall k :: i < k < |history| ==> history[k].topic != topic) ==>
              topic in After(history).raw && After(history).raw[topic] == history[i].value
    ensures After(history).portalId == if history == [] then "" else history[|history| - 1].portalId
  {
    if history != [] {
      var n := |history| - 1;
      RawShowsLastMessages(history[..n], topic);
      StructuredKeepsRaw(After(history[..n]), history[n]);
      hide After, Updated;
      assert history == history[..n] + [history[n]];
      LastUpdate(history);
      if topic in After(history[..n]).raw {
        var i :| 0 <= i < n && history[..n][i].topic == topic;
        assert history[i].topic == topic;
      }
      assert forall i :: 0 <= i < n ==> history[i] == history[..n][i];
    }
  }

  lemma LastUpdate(history: seq<Telemetry>)
    requires history != []
    ensures After(history) == Updated(After(history[..|history| - 1]), history[|history| - 1])
  {
    hide Updated;
  }

  lemma StructuredKeepsRaw(s: Snapshot, t: Telemetry)
    ensures Updated(s, t).raw == s.raw[t.topic := t.value] && Updated(s, t).portalId == t.portalId
  {
    hide Upsert, WriteSystem;
  }

  // ---- The controller ----

  /** The position of the first entry of an instance, or the length of the list. */
  method Find<R>(list: seq<Entry<R>>, instance: int) returns (i: nat)
    ensures i <= |list|
    ensures i < |list| ==> list[i].instance == instance
    ensures forall k :: 0 <= k < i ==> list[k].instance != instance
  {
    i := 0;
    while i < |list|
      invariant i <= |list|
      invariant forall k :: 0 <= k < i ==> list[k].instance != instance
    {
      if list[i].instance == instance {
        return;
      }
      i := i + 1;
    }
  }

  class VictronController {
    var portalId: string
    var batteries: seq<Entry<BatteryData>>
    var solarChargers: seq<Entry<SolarChargerData>>
    var pvInverters: seq<Entry<PvInverterData>>
    var acLoads: seq<Entry<LoadData>>
    var dcLoads: seq<Entry<LoadData>>
    var vebus: seq<Entry<VebusData>>
    var temperatures: seq<Entry<real>>
    var tanks: seq<Entry<real>>
    var system: SystemData
    var raw: map<string, real>
    var hasData: bool

    function Current(): Snapshot
      reads this
    {
      Snapshot(portalId, batteries, solarChargers, pvInverters, acLoads, dcLoads, vebus, temperatures, tanks, system, raw)
    }

    constructor ()
      ensures Current() == EMPTY_SNAPSHOT && !hasData
    {
      portalId, batteries, solarChargers, pvInverters := "", [], [], [];
      acLoads, dcLoads, vebus, temperatures, tanks := [], [], [], [], [];
      system, raw, hasData := NO_SYSTEM, map[], false;
    }

    /** Brings the snapshot up to date with one more message of the history. */
    method HandleTelemetryUpdate(t: Telemetry)
      modifies this
      ensures Current() == Updated(old(Current()), t)
      ensures hasData
    {
      raw := raw[t.topic := t.value];
      portalId := t.portalId;
      UpdateStructuredSnapshot(t);
      hasData := true;
    }

    method UpdateStructuredSnapshot(t: Telemetry)
      modifies this
      ensures Current() == Structured(old(Current()), t)
      ensures hasData == old(hasData)
    {
      match t.service {
        case BatteryService => UpdateBatteryData(t);
        case SolarChargerService => UpdateSolarData(t);
        case PvInverterService => UpdateSolarData(t);
        case AcLoadService => UpdateAcLoadData(t);
        case DcLoadService => UpdateDcLoadData(t);
        case VebusService => UpdateVebusData(t);
        case TemperatureService => UpdateTemperatureData(t);
        case TankService => UpdateTankData(t);
        case SystemService => UpdateSystemData(t);
        case UnstructuredService(_) =>
      }
    }

    method UpdateBatteryData(t: Telemetry)
      modifies this`batteries
      ensures batteries == Upsert(old(batteries), t.instance, NO_BATTERY, BatteryWriter(t))
      decreases t.instance !in Instances(batteries)
    {
      var i := Find(batteries, t.instance);
      if i < |batteries| {
        UpsertHit(batteries, t.instance, NO_BATTERY, BatteryWriter(t), i);
        var battery := batteries[i].data;
        match t.path {
          case Dc0Voltage => battery := battery.(voltage := t.value);
          case Dc0Current => battery := battery.(current := t.value);
          case Dc0Power => battery := battery.(power := t.value);
          case SocPath => battery := battery.(soc := t.value);
          case TemperaturePath => battery := battery.(temperature := t.value);
          case _ =>
        }
        batteries := batteries[i := Entry(t.instance, battery)];
        return;
      }
      UpsertAfterBlank(batteries, t.instance, NO_BATTERY, BatteryWriter(t));
      batteries := batteries + [Entry(t.instance, NO_BATTERY)];
      assert Instances(batteries)[|batteries| - 1] == t.instance;
      UpdateBatteryData(t);
    }

    method UpdateSolarData(t: Telemetry)
      modifies this`solarChargers
      ensures solarChargers == Upsert(old(solarChargers), t.instance, NO_SOLAR, SolarWriter(t))
      decreases t.instance !in Instances(solarChargers)
    {
      var i := Find(solarChargers, t.instance);
      if i < |solarChargers| {
        UpsertHit(solarChargers, t.instance, NO_SOLAR, SolarWriter(t), i);
        var charger := solarChargers[i].data;
        match t.path {
          case Dc0Power => charger := charger.(power := t.value);
          case Dc0Voltage => charger := charger.(voltage := t.value);
          case Dc0Current => charger := charger.(current := t.value);
          case YieldPower => charger := charger.(power := t.value);
          case _ =>
        }
        solarChargers := solarChargers[i := Entry(t.instance, charger)];
        return;
      }
      UpsertAfterBlank(solarChargers, t.instance, NO_SOLAR, SolarWriter(t));
      solarChargers := solarChargers + [Entry(t.instance, NO_SOLAR)];
      assert Instances(solarChargers)[|solarChargers| - 1] == t.instance;
      UpdateSolarData(t);
    }

    method UpdateAcLoadData(t: Telemetry)
      modifies this`acLoads
      ensures acLoads == Upsert(old(acLoads), t.instance, NO_LOAD, AcLoadWriter(t))
      decreases t.instance !in Instances(acLoads)
    {
      var i := Find(acLoads, t.instance);
      if i < |acLoads| {
        UpsertHit(acLoads, t.instance, NO_LOAD, AcLoadWriter(t), i);
        var load := acLoads[i].data;
        match t.path {
          case Ac0Power => load := load.(power := t.value);
          case Ac0Voltage => load := load.(voltage := t.value);
          case Ac0Current => load := load.(current := t.value);
          case _ =>
        }
        acLoads := acLoads[i := Entry(t.instance, load)];
        return;
      }
      UpsertAfterBlank(acLoads, t.instance, NO_LOAD, AcLoadWriter(t));
      acLoads := acLoads + [Entry(t.instance, NO_LOAD)];
      assert Instances(acLoads)[|acLoads| - 1] == t.instance;
      UpdateAcLoadData(t);
    }

    method UpdateDcLoadData(t: Telemetry)
      modifies this`dcLoads
      ensures dcLoads == Upsert(old(dcLoads), t.instance, NO_LOAD, DcLoadWriter(t))
      decreases t.instance !in Instances(dcLoads)
    {
      var i := Find(dcLoads, t.instance);
      if i < |dcLoads| {
        UpsertHit(dcLoads, t.instance, NO_LOAD, DcLoadWriter(t), i);
        var load := dcLoads[i].data;
        match t.path {
          case Dc0Power => load := load.(power := t.value);
          case Dc0Voltage => load := load.(voltage := t.value);
          case Dc0Current => load := load.(current := t.value);
          case _ =>
        }
        dcLoads := dcLoads[i := Entry(t.instance, load)];
        return;
      }
      UpsertAfterBlank(dcLoads, t.instance, NO_LOAD, DcLoadWriter(t));
      dcLoads := dcLoads + [Entry(t.instance, NO_LOAD)];
      assert Instances(dcLoads)[|dcLoads| - 1] == t.instance;
      UpdateDcLoadData(t);
    }

    method UpdateVebusData(t: Telemetry)
      modifies this`vebus
      ensures vebus == Upsert(old(vebus), t.instance, NO_VEBUS, VebusWriter(t))
      decreases t.instance !in Instances(vebus)
    {
      var i := Find(vebus, t.instance);
      if i < |vebus| {
        UpsertHit(vebus, t.instance, NO_VEBUS, VebusWriter(t), i);
        var device := vebus[i].data;
        match t.path {
          case AcState => device := device.(state := t.value);
          case AcOutP => device := device.(power := t.value);
          case AcActiveInL1V => device := device.(activeInVoltage := t.value);
          case AcActiveInL1I => device := device.(activeInCurrent := t.value);
          case AcActiveInConnected => device := device.(activeInConnected := Some(t.value > 0.0));
          case AcActiveInActiveInput => device := device.(activeInput := Some(t.value));
          case _ =>
        }
        vebus := vebus[i := Entry(t.instance, device)];
        return;
      }
      UpsertAfterBlank(vebus, t.instance, NO_VEBUS, VebusWriter(t));
      vebus := vebus + [Entry(t.instance, NO_VEBUS)];
      assert Instances(vebus)[|vebus| - 1] == t.instance;
      UpdateVebusData(t);
    }

    method UpdateTemperatureData(t: Telemetry)
      modifies this`temperatures
      ensures temperatures == Upsert(old(temperatures), t.instance, 0.0, ReadingWriter(t))
    {
      var i := Find(temperatures, t.instance);
      if i < |temperatures| {
        UpsertHit(temperatures, t.instance, 0.0, ReadingWriter(t), i);
        temperatures := temperatures[i := Entry(t.instance, t.value)];
        return;
      }
      UpsertMiss(temperatures, t.instance, 0.0, ReadingWriter(t));
      temperatures := temperatures + [Entry(t.instance, t.value)];
    }

    method UpdateTankData(t: Telemetry)
      modifies this`tanks
      ensures tanks == Upsert(old(tanks), t.instance, 0.0, ReadingWriter(t))
    {
      var i := Find(tanks, t.instance);
      if i < |tanks| {
        UpsertHit(tanks, t.instance, 0.0, ReadingWriter(t), i);
        tanks := tanks[i := Entry(t.instance, t.value)];
        return;
      }
      UpsertMiss(tanks, t.instance, 0.0, ReadingWriter(t));
      tanks := tanks + [Entry(t.instance, t.value)];
    }

    method UpdateSystemData(t: Telemetry)
      modifies this`system
      ensures system == WriteSystem(old(system), t.path, t.value)
    {
      match t.path {
        case AcGridPower(L1) => system := system.(gridL1Power := t.value);
        case AcGridPower(L2) => system := system.(gridL2Power := t.value);
        case AcGridPower(L3) => system := system.(gridL3Power := t.value);
        case AcConsumptionPower(L1) => system := system.(consumptionL1Power := t.value);
        case AcConsumptionPower(L2) => system := system.(consumptionL2Power := t.value);
        case AcConsumptionPower(L3) => system := system.(consumptionL3Power := t.value);
        case DcBatterySoc => system := system.(batterySoc := t.value);
        case DcBatteryPower => system := system.(batteryPower := t.value);
        case DcPvPower => system := system.(pvPower := t.value);
        case AcActiveInSource => system := system.(acActiveInSource := Some(t.value));
        case _ =>
      }
    }
  }
}
