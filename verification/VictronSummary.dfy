/** The aggregate shown above a Victron snapshot, and what it depends on in the telemetry history. */
module VictronSummary {
  import opened Outcomes
  import opened Collections
  import opened VictronSnapshot

  const AC_INPUT_CONNECTED_VOLTAGE := 100.0
  const AC_ACTIVE_INPUT_NONE := 240.0

  datatype Summary = Summary(
    batterySoc: Option<real>, batteryVoltage: real, batteryPower: real, solarPower: real, acLoadPower: real,
    gridPower: real, acInputVoltage: real, acInputConnected: bool, isCharging: bool, isInverting: bool)

  // ---- What the loops of the summary compute ----

  function SumBy<R>(list: seq<Entry<R>>, power: R -> real): real {
    if list == [] then 0.0 else SumBy(list[..|list| - 1], power) + power(list[|list| - 1].data)
  }

  // The reading of the last device in the list that has one, or else `none`.
  function LastKnown<R, T>(list: seq<Entry<R>>, reading: R -> Option<T>, none: Option<T>): Option<T> {
    if list == [] then none
    else if reading(list[|list| - 1].data).Some? then reading(list[|list| - 1].data)
    else LastKnown(list[..|list| - 1], reading, none)
  }

  function Nonzero(v: real): (r: Option<real>)
    ensures r == None <==> v == 0.0
    ensures r != None ==> r == Some(v)
  {
    if v != 0.0 then Some(v) else None
  }

  function OrZero(v: Option<real>): real {
    if v.Some? then v.value else 0.0
  }

  function Overridden(total: real, sum: real): real {
    if total != 0.0 then total else sum
  }

  function BatteryPowerOf(b: BatteryData): real { b.power }
  function SolarPowerOf(s: SolarChargerData): real { s.power }
  function PvPowerOf(p: PvInverterData): real { p.power }
  function LoadPowerOf(l: LoadData): real { l.power }
  function SocOf(b: BatteryData): Option<real> { Nonzero(b.soc) }
  function VoltageOf(b: BatteryData): Option<real> { Nonzero(b.voltage) }
  function InputVoltageOf(d: VebusData): Option<real> { Nonzero(d.activeInVoltage) }
  function ConnectedOf(d: VebusData): Option<bool> { d.activeInConnected }
  function ActiveInputOf(d: VebusData): Option<real> { d.activeInput }

  function BatteryVoltage(s: Snapshot): real {
    OrZero(LastKnown(s.batteries, VoltageOf, None))
  }

  function BatterySoc(s: Snapshot): Option<real> {
    if s.system.batterySoc != 0.0 then Some(s.system.batterySoc) else LastKnown(s.batteries, SocOf, None)
  }

  function InputVoltage(s: Snapshot): real {
    OrZero(LastKnown(s.vebus, InputVoltageOf, None))
  }

  // The last connected flag, and the last active input or else the system's source.
  function KnownFlag(s: Snapshot): Option<bool> {
    LastKnown(s.vebus, ConnectedOf, None)
  }

  function KnownInput(s: Snapshot): Option<real> {
    LastKnown(s.vebus, ActiveInputOf, s.system.acActiveInSource)
  }

  /** Whether the AC input feeds the system: an explicit indicator wins over the measured voltage. */
  function InputConnected(s: Snapshot): bool {
    match KnownFlag(s)
    case Some(flag) => flag
    case None =>
      match KnownInput(s)
      case Some(input) => input != AC_ACTIVE_INPUT_NONE
      case None => InputVoltage(s) >= AC_INPUT_CONNECTED_VOLTAGE
  }

  function ConsumptionTotal(sys: SystemData): real {
    sys.consumptionL1Power + sys.consumptionL2Power + sys.consumptionL3Power
  }

  function GridTotal(sys: SystemData): real {
    sys.gridL1Power + sys.gridL2Power + sys.gridL3Power
  }

  function BatteryPower(s: Snapshot): real {
    Overridden(s.system.batteryPower, SumBy(s.batteries, BatteryPowerOf))
  }

  function SolarPower(s: Snapshot): real {
    Overridden(s.system.pvPower, SumBy(s.solarChargers, SolarPowerOf) + SumBy(s.pvInverters, PvPowerOf))
  }

  function AcLoadPower(s: Snapshot): real {
    Overridden(ConsumptionTotal(s.system), SumBy(s.acLoads, LoadPowerOf))
  }

  /** The metered grid power, or else what load, solar and battery leave to a connected input. */
  function GridPower(s: Snapshot): real {
    Overridden(GridTotal(s.system), if InputConnected(s) && Balance(s) > 0.0 then Balance(s) else 0.0)
  }

  function Balance(s: Snapshot): real {
    AcLoadPower(s) - SolarPower(s) - BatteryPower(s)
  }

  // ---- The summary as it is built ----

  method AcInputState(s: Snapshot) returns (voltage: real, connected: bool)
    ensures voltage == InputVoltage(s)
    ensures connected == InputConnected(s)
  {
    voltage := 0.0;
    var flag: Option<bool>, activeInput: Option<real> := None, None;
    for i := 0 to |s.vebus|
      invariant voltage == OrZero(LastKnown(s.vebus[..i], InputVoltageOf, None))
      invariant flag == LastKnown(s.vebus[..i], ConnectedOf, None)
      invariant LastKnown(s.vebus[..i], ActiveInputOf, s.system.acActiveInSource)
             == if activeInput.Some? then activeInput else s.system.acActiveInSource
    {
      assert s.vebus[..i + 1][..i] == s.vebus[..i];
      var v := s.vebus[i].data;
      if v.activeInVoltage != 0.0 {
        voltage := v.activeInVoltage;
      }
      if v.activeInConnected.Some? {
        flag := v.activeInConnected;
      }
      if v.activeInput.Some? {
        activeInput := v.activeInput;
      }
    }
    assert s.vebus[..|s.vebus|] == s.vebus;
    if flag.Some? {
      connected := flag.value;
    } else if activeInput.Some? {
      connected := activeInput.value != AC_ACTIVE_INPUT_NONE;
    } else if s.system.acActiveInSource.Some? {
      connected := s.system.acActiveInSource.value != AC_ACTIVE_INPUT_NONE;
    } else {
      connected := voltage >= AC_INPUT_CONNECTED_VOLTAGE;
    }
  }

  method SumPowers<R>(list: seq<Entry<R>>, power: R -> real, from: real) returns (total: real)
    ensures total == from + SumBy(list, power)
  {
    total := from;
    for i := 0 to |list|
      invariant total == from + SumBy(list[..i], power)
    {
      assert list[..i + 1][..i] == list[..i];
      total := total + power(list[i].data);
    }
    assert list[..|list|] == list;
  }

  method SummariseBatteries(list: seq<Entry<BatteryData>>) returns (soc: Option<real>, voltage: real, power: real)
    ensures soc == LastKnown(list, SocOf, None)
    ensures voltage == OrZero(LastKnown(list, VoltageOf, None))
    ensures power == SumBy(list, BatteryPowerOf)
  {
    soc, voltage, power := None, 0.0, 0.0;
    for i := 0 to |list|
      invariant soc == LastKnown(list[..i], SocOf, None)
      invariant voltage == OrZero(LastKnown(list[..i], VoltageOf, None))
      invariant power == SumBy(list[..i], BatteryPowerOf)
    {
      assert list[..i + 1][..i] == list[..i];
      var b := list[i].data;
      if b.soc != 0.0 {
        soc := Some(b.soc);
      }
      if b.voltage != 0.0 {
        voltage := b.voltage;
      }
      power := power + b.power;
    }
    assert list[..|list|] == list;
  }

  /** The summary of a snapshot. A battery never both charges and inverts, and without a grid meter the
      grid power is what closes the balance of a connected input, or nothing. */
  method BuildSummary(s: Snapshot) returns (r: Summary)
    ensures r.batteryPower == BatteryPower(s)
    ensures r.solarPower == SolarPower(s)
    ensures r.acLoadPower == AcLoadPower(s)
    ensures r.acInputVoltage == InputVoltage(s) && r.acInputConnected == InputConnected(s)
    ensures r.gridPower == GridPower(s)
    ensures var meter := s.system.gridL1Power + s.system.gridL2Power + s.system.gridL3Power;
            var balance := r.acLoadPower - r.solarPower - r.batteryPower;
            r.gridPower == if meter != 0.0 then meter else if r.acInputConnected && balance > 0.0 then balance else 0.0
    ensures r.batteryVoltage == BatteryVoltage(s)
    ensures r.batterySoc == BatterySoc(s)
    ensures r.isCharging == (r.batteryPower > 0.0) && r.isInverting == (r.batteryPower < 0.0)
    ensures !(r.isCharging && r.isInverting)
    ensures GridTotal(s.system) == 0.0 ==> r.gridPower >= 0.0
    ensures GridTotal(s.system) == 0.0 && r.gridPower > 0.0
            ==> r.acInputConnected && r.acLoadPower == r.solarPower + r.batteryPower + r.gridPower
  {
    hide SumBy, LastKnown, InputConnected, InputVoltage;
    var soc, batteryVoltage, batteryPower := SummariseBatteries(s.batteries);
    var solarPower := SumPowers(s.solarChargers, SolarPowerOf, 0.0);
    solarPower := SumPowers(s.pvInverters, PvPowerOf, solarPower);
    var acLoadPower := SumPowers(s.acLoads, LoadPowerOf, 0.0);
    var inputVoltage, connected := AcInputState(s);

    var sys := s.system;
    var consumption := sys.consumptionL1Power + sys.consumptionL2Power + sys.consumptionL3Power;
    if consumption != 0.0 {
      acLoadPower := consumption;
    }
    if sys.batterySoc != 0.0 {
      soc := Some(sys.batterySoc);
    }
    if sys.batteryPower != 0.0 {
      batteryPower := sys.batteryPower;
    }
    if sys.pvPower != 0.0 {
      solarPower := sys.pvPower;
    }

    var gridPower := 0.0;
    var grid := sys.gridL1Power + sys.gridL2Power + sys.gridL3Power;
    if grid != 0.0 {
      gridPower := grid;
    } else if connected {
      var balance := acLoadPower - solarPower - batteryPower;
      if balance > 0.0 {
        gridPower := balance;
      }
    }

    var charging, inverting := false, false;
    if batteryPower > 0.0 {
      charging := true;
    }
    if batteryPower < 0.0 {
      inverting := true;
    }
    r := Summary(soc, batteryVoltage, batteryPower, solarPower, acLoadPower, gridPower,
                 inputVoltage, connected, charging, inverting);
  }

  // ---- Sums over devices as sums over last values ----

  function Latest(history: seq<Telemetry>, cell: Cell): real {
    OrZero(LastValue(history, cell))
  }

  // The power each instance of a list last reported.
  function LastPowers(history: seq<Telemetry>, list: DeviceList): int -> real {
    id => Latest(history, DeviceCell(list, id, Power))
  }

  function SumOver(ids: seq<int>, f: int -> real): real {
    if ids == [] then 0.0 else SumOver(ids[..|ids| - 1], f) + f(ids[|ids| - 1])
  }

  lemma {:induction false} LookupAt<R>(list: seq<Entry<R>>, i: nat, none: R)
    requires i < |list| && Distinct(Instances(list))
    ensures Lookup(list, list[i].instance, none) == list[i].data
  {
    if i > 0 {
      var ids := Instances(list);
      assert ids[0] != ids[i];
      forall j, k | 0 <= j < k < |list[1..]| ensures Instances(list[1..])[j] != Instances(list[1..])[k] {
        assert ids[j + 1] != ids[k + 1];
      }
      LookupAt(list[1..], i - 1, none);
    }
  }

  // Summing the devices of a prefix is summing what each instance last reported.
  lemma {:induction false} SumByIsSumOver<R>(list: seq<Entry<R>>, n: nat, power: R -> real, none: R, f: int -> real)
    requires n <= |list| && Distinct(Instances(list))
    requires forall id :: power(Lookup(list, id, none)) == f(id)
    ensures SumBy(list[..n], power) == SumOver(Instances(list)[..n], f)
  {
    hide Instances, Lookup;
    if n > 0 {
      SumByIsSumOver(list, n - 1, power, none, f);
      assert list[..n][..n - 1] == list[..n - 1];
      assert Instances(list)[..n][..n - 1] == Instances(list)[..n - 1];
      LookupAt(list, n - 1, none);
      assert power(Lookup(list, list[n - 1].instance, none)) == f(list[n - 1].instance);
    }
  }

  lemma NumberShown(history: seq<Telemetry>, cell: Cell)
    requires Show(EMPTY_SNAPSHOT, cell).Number?
    ensures Show(After(history), cell) == Number(Latest(history, cell))
  {
    hide After, LastValue, ShowBattery, ShowLoad, ShowSolar, ShowVebus, ShowSystem, Lookup;
    SnapshotShowsLastValues(history, cell);
    EmptyShowsDefaults(cell);
  }

  lemma {:induction false} BatterySum(history: seq<Telemetry>)
    ensures SumBy(After(history).batteries, BatteryPowerOf)
         == SumOver(FirstAppearances(history, Batteries), LastPowers(history, Batteries))
  {
    hide After, SumBy, SumOver, FirstAppearances, Instances, Lookup, LastValue, Latest;
    var list := After(history).batteries;
    ListsInOrderOfAppearance(history, Batteries);
    forall id ensures BatteryPowerOf(Lookup(list, id, NO_BATTERY)) == LastPowers(history, Batteries)(id) {
      NumberShown(history, DeviceCell(Batteries, id, Power));
    }
    SumByIsSumOver(list, |list|, BatteryPowerOf, NO_BATTERY, LastPowers(history, Batteries));
    assert list[..|list|] == list && Instances(list)[..|list|] == Instances(list);
  }

  lemma {:induction false} SolarSum(history: seq<Telemetry>)
    ensures SumBy(After(history).solarChargers, SolarPowerOf)
         == SumOver(FirstAppearances(history, SolarChargers), LastPowers(history, SolarChargers))
    ensures SumBy(After(history).pvInverters, PvPowerOf) == 0.0
  {
    hide After, SumOver, FirstAppearances, Instances, Lookup, LastValue, Latest;
    var list := After(history).solarChargers;
    ListsInOrderOfAppearance(history, SolarChargers);
    forall id ensures SolarPowerOf(Lookup(list, id, NO_SOLAR)) == LastPowers(history, SolarChargers)(id) {
      NumberShown(history, DeviceCell(SolarChargers, id, Power));
    }
    SumByIsSumOver(list, |list|, SolarPowerOf, NO_SOLAR, LastPowers(history, SolarChargers));
    assert list[..|list|] == list && Instances(list)[..|list|] == Instances(list);
  }

  lemma {:induction false} AcLoadSum(history: seq<Telemetry>)
    ensures SumBy(After(history).acLoads, LoadPowerOf)
         == SumOver(FirstAppearances(history, AcLoads), LastPowers(history, AcLoads))
  {
    hide After, SumBy, SumOver, FirstAppearances, Instances, Lookup, LastValue, Latest;
    var list := After(history).acLoads;
    ListsInOrderOfAppearance(history, AcLoads);
    forall id ensures LoadPowerOf(Lookup(list, id, NO_LOAD)) == LastPowers(history, AcLoads)(id) {
      NumberShown(history, DeviceCell(AcLoads, id, Power));
    }
    SumByIsSumOver(list, |list|, LoadPowerOf, NO_LOAD, LastPowers(history, AcLoads));
    assert list[..|list|] == list && Instances(list)[..|list|] == Instances(list);
  }

  function LastConsumption(history: seq<Telemetry>): real {
    Latest(history, SystemCell(Consumption(L1))) + Latest(history, SystemCell(Consumption(L2)))
    + Latest(history, SystemCell(Consumption(L3)))
  }

  /** The three powers of the summary in terms of the history alone: each is the sum, over the instances
      that ever reported, of the power last reported, unless a nonzero system total overrides it. */
  lemma PowersOfHistory(history: seq<Telemetry>)
    ensures var total := Latest(history, SystemCell(BatteryPowerTotal));
            BatteryPower(After(history)) ==
            if total != 0.0 then total else SumOver(FirstAppearances(history, Batteries), LastPowers(history, Batteries))
    ensures var total := Latest(history, SystemCell(PvPowerTotal));
            SolarPower(After(history)) ==
            if total != 0.0 then total else SumOver(FirstAppearances(history, SolarChargers), LastPowers(history, SolarChargers))
    ensures var total := LastConsumption(history);
            AcLoadPower(After(history)) ==
            if total != 0.0 then total else SumOver(FirstAppearances(history, AcLoads), LastPowers(history, AcLoads))
  {
    hide After, SumBy, SumOver, FirstAppearances, LastValue, Latest, LastPowers;
    BatterySum(history);
    SolarSum(history);
    AcLoadSum(history);
    NumberShown(history, SystemCell(BatteryPowerTotal));
    NumberShown(history, SystemCell(PvPowerTotal));
    NumberShown(history, SystemCell(Consumption(L1)));
    NumberShown(history, SystemCell(Consumption(L2)));
    NumberShown(history, SystemCell(Consumption(L3)));
  }

  // ---- Independence of the order ----

  lemma {:induction false} SumWithout(ids: seq<int>, k: nat, f: int -> real)
    requires k < |ids|
    ensures SumOver(ids, f) == SumOver(Without(ids, k), f) + f(ids[k])
    decreases |ids|
  {
    var last := |ids| - 1;
    if k == last {
      assert Without(ids, k) == ids[..last];
    } else {
      SumWithout(ids[..last], k, f);
      assert Without(ids, k)[..last - 1] == Without(ids[..last], k);
      assert Without(ids, k)[last - 1] == ids[last];
    }
  }

  lemma {:induction false} SumOfZeros(ids: seq<int>, f: int -> real)
    requires forall id :: id in ids ==> f(id) == 0.0
    ensures SumOver(ids, f) == 0.0
  {
    if ids != [] {
      var last := ids[|ids| - 1];
      SumOfZeros(ids[..|ids| - 1], f);
      assert last in ids && f(last) == 0.0;
      assert SumOver(ids, f) == SumOver(ids[..|ids| - 1], f) + f(last);
    }
  }

  // Two sums agree when the functions do and whatever only one of them lists counts for nothing.
  lemma {:induction false} SumsAgree(xs: seq<int>, f: int -> real, ys: seq<int>, g: int -> real)
    requires Distinct(xs) && Distinct(ys)
    requires forall id :: f(id) == g(id)
    requires forall id :: id in xs && id !in ys ==> f(id) == 0.0
    requires forall id :: id in ys && id !in xs ==> f(id) == 0.0
    ensures SumOver(xs, f) == SumOver(ys, g)
    decreases |xs|
  {
    if xs == [] {
      SumOfZeros(ys, g);
    } else {
      var x, rest := xs[|xs| - 1], xs[..|xs| - 1];
      assert x !in rest;
      assert f(x) == g(x);
      if x in ys {
        hide Without;
        var k: nat :| k < |ys| && ys[k] == x;
        SumWithout(ys, k, g);
        var others := Without(ys, k);
        WithoutMembers(ys, k);
        SumsAgree(rest, f, others, g);
      } else {
        SumsAgree(rest, f, ys, g);
      }
    }
  }

  lemma WithoutMembers(ids: seq<int>, k: nat)
    requires k < |ids| && Distinct(ids)
    ensures Distinct(Without(ids, k))
    ensures forall id :: id in Without(ids, k) <==> id in ids && id != ids[k]
  {
    var rest := Without(ids, k);
    assert forall i :: 0 <= i < |rest| ==> rest[i] == ids[if i < k then i else i + 1];
    forall id | id in ids && id != ids[k] ensures id in rest {
      var i :| 0 <= i < |ids| && ids[i] == id;
      assert rest[if i < k then i else i - 1] == id;
    }
  }

  // An instance that wrote a cell of a list is listed there.
  lemma {:induction false} WrittenIsListed(history: seq<Telemetry>, list: DeviceList, id: int, q: Quantity)
    requires LastValue(history, DeviceCell(list, id, q)).Some?
    ensures id in FirstAppearances(history, list)
  {
    if history != [] && CellOf(history[|history| - 1]) != Some(DeviceCell(list, id, q)) {
      WrittenIsListed(history[..|history| - 1], list, id, q);
    }
  }

  ghost predicate SameLastValues(h1: seq<Telemetry>, h2: seq<Telemetry>) {
    forall cell :: LastValue(h1, cell) == LastValue(h2, cell)
  }

  lemma SameSums(h1: seq<Telemetry>, h2: seq<Telemetry>, list: DeviceList)
    requires SameLastValues(h1, h2)
    ensures SumOver(FirstAppearances(h1, list), LastPowers(h1, list)) == SumOver(FirstAppearances(h2, list), LastPowers(h2, list))
  {
    hide SumOver, FirstAppearances, LastValue, After, ListedInstances;
    var xs, ys := FirstAppearances(h1, list), FirstAppearances(h2, list);
    var f, g := LastPowers(h1, list), LastPowers(h2, list);
    ListsInOrderOfAppearance(h1, list);
    ListsInOrderOfAppearance(h2, list);
    forall id ensures f(id) == g(id) && (id !in xs || id !in ys ==> f(id) == 0.0) {
      var cell := DeviceCell(list, id, Power);
      assert LastValue(h1, cell) == LastValue(h2, cell);
      if LastValue(h1, cell).Some? {
        WrittenIsListed(h1, list, id, Power);
        WrittenIsListed(h2, list, id, Power);
      }
    }
    SumsAgree(xs, f, ys, g);
  }

  /** The three powers depend on the last value of each cell only. */
  lemma PowersDependOnLastValues(h1: seq<Telemetry>, h2: seq<Telemetry>)
    requires SameLastValues(h1, h2)
    ensures BatteryPower(After(h1)) == BatteryPower(After(h2))
    ensures SolarPower(After(h1)) == SolarPower(After(h2))
    ensures AcLoadPower(After(h1)) == AcLoadPower(After(h2))
  {
    hide BatteryPower, SolarPower, AcLoadPower, After, SumOver, FirstAppearances, LastValue, LastPowers;
    PowersOfHistory(h1);
    PowersOfHistory(h2);
    SameSums(h1, h2, Batteries);
    SameSums(h1, h2, SolarChargers);
    SameSums(h1, h2, AcLoads);
  }

  // The values a history writes to a cell, in order.
  function WrittenTo(history: seq<Telemetry>, cell: Cell): seq<real> {
    if history == [] then []
    else
      WrittenTo(history[..|history| - 1], cell)
      + if CellOf(history[|history| - 1]) == Some(cell) then [history[|history| - 1].value] else []
  }

  lemma {:induction false} LastValueIsLastWritten(history: seq<Telemetry>, cell: Cell)
    ensures var vs := WrittenTo(history, cell);
            LastValue(history, cell) == if vs == [] then None else Some(vs[|vs| - 1])
  {
    hide CellOf;
    if history != [] {
      LastValueIsLastWritten(history[..|history| - 1], cell);
    }
  }

  lemma WrittenToNothing(cell: Cell)
    ensures WrittenTo([], cell) == []
  {
  }

  lemma WrittenToLast(history: seq<Telemetry>, t: Telemetry, cell: Cell)
    ensures WrittenTo(history + [t], cell) == WrittenTo(history, cell) + if CellOf(t) == Some(cell) then [t.value] else []
  {
    hide CellOf;
    assert (history + [t])[..|history|] == history;
  }

  lemma {:induction false} WrittenToAppend(a: seq<Telemetry>, b: seq<Telemetry>, cell: Cell)
    ensures WrittenTo(a + b, cell) == WrittenTo(a, cell) + WrittenTo(b, cell)
  {
    hide CellOf, WrittenTo;
    if b == [] {
      assert a + b == a;
      WrittenToNothing(cell);
    } else {
      var rest, last := b[..|b| - 1], b[|b| - 1];
      WrittenToAppend(a, rest, cell);
      WrittenToLast(a + rest, last, cell);
      WrittenToLast(rest, last, cell);
      assert b == rest + [last] && a + b == a + rest + [last];
    }
  }

  /** A reordering that keeps the messages of each cell in their order. */
  ghost predicate SameCellOrders(h1: seq<Telemetry>, h2: seq<Telemetry>) {
    forall cell :: WrittenTo(h1, cell) == WrittenTo(h2, cell)
  }

  /** The three powers do not change when messages of different cells are interleaved differently. */
  lemma PowersIgnoreInterleaving(h1: seq<Telemetry>, h2: seq<Telemetry>)
    requires SameCellOrders(h1, h2)
    ensures BatteryPower(After(h1)) == BatteryPower(After(h2))
    ensures SolarPower(After(h1)) == SolarPower(After(h2))
    ensures AcLoadPower(After(h1)) == AcLoadPower(After(h2))
  {
    hide BatteryPower, SolarPower, AcLoadPower, After;
    forall cell ensures LastValue(h1, cell) == LastValue(h2, cell) {
      hide WrittenTo, LastValue;
      LastValueIsLastWritten(h1, cell);
      LastValueIsLastWritten(h2, cell);
    }
    PowersDependOnLastValues(h1, h2);
  }

  lemma SwapKeepsCellOrders(before: seq<Telemetry>, a: Telemetry, b: Telemetry, after: seq<Telemetry>)
    requires CellOf(a).None? || CellOf(a) != CellOf(b)
    ensures SameCellOrders(before + [a, b] + after, before + [b, a] + after)
  {
    forall cell ensures WrittenTo(before + [a, b] + after, cell) == WrittenTo(before + [b, a] + after, cell) {
      assert WrittenTo([a, b], cell) == WrittenTo([b, a], cell) by {
        hide CellOf;
        assert [a, b][..1] == [a] && [b, a][..1] == [b];
      }
      hide WrittenTo;
      WrittenToAppend(before + [a, b], after, cell);
      WrittenToAppend(before, [a, b], cell);
      WrittenToAppend(before + [b, a], after, cell);
      WrittenToAppend(before, [b, a], cell);
    }
  }

  /** Swapping two adjacent messages of different cells, anywhere in a history, keeps the three powers. */
  lemma PowersIgnoreSwap(before: seq<Telemetry>, a: Telemetry, b: Telemetry, after: seq<Telemetry>)
    requires CellOf(a).None? || CellOf(a) != CellOf(b)
    ensures var h1, h2 := before + [a, b] + after, before + [b, a] + after;
            && BatteryPower(After(h1)) == BatteryPower(After(h2))
            && SolarPower(After(h1)) == SolarPower(After(h2))
            && AcLoadPower(After(h1)) == AcLoadPower(After(h2))
  {
    hide BatteryPower, SolarPower, AcLoadPower, After, SameCellOrders;
    SwapKeepsCellOrders(before, a, b, after);
    PowersIgnoreInterleaving(before + [a, b] + after, before + [b, a] + after);
  }

  // ---- Figures that depend on the order ----

  // What the last of some instances that has a reading reads, or else `none`.
  function LastOver<T>(ids: seq<int>, reading: int -> Option<T>, none: Option<T>): Option<T> {
    if ids == [] then none
    else if reading(ids[|ids| - 1]).Some? then reading(ids[|ids| - 1])
    else LastOver(ids[..|ids| - 1], reading, none)
  }

  // The last known reading of the devices in a list is that over their instances.
  lemma {:induction false} LastKnownIsLastOver<R, T>(list: seq<Entry<R>>, n: nat, reading: R -> Option<T>, blank: R,
          f: int -> Option<T>, none: Option<T>)
    requires n <= |list| && Distinct(Instances(list))
    requires forall id :: reading(Lookup(list, id, blank)) == f(id)
    ensures LastKnown(list[..n], reading, none) == LastOver(Instances(list)[..n], f, none)
  {
    hide Instances, Lookup;
    if n > 0 {
      LastKnownIsLastOver(list, n - 1, reading, blank, f, none);
      assert list[..n][..n - 1] == list[..n - 1];
      assert Instances(list)[..n][..n - 1] == Instances(list)[..n - 1];
      LookupAt(list, n - 1, blank);
      assert reading(Lookup(list, list[n - 1].instance, blank)) == f(list[n - 1].instance);
    }
  }

  lemma {:induction false} LastOverAppend<T>(a: seq<int>, b: seq<int>, reading: int -> Option<T>, none: Option<T>)
    ensures LastOver(a + b, reading, none) == LastOver(b, reading, LastOver(a, reading, none))
  {
    if b == [] {
      assert a + b == a;
    } else {
      assert (a + b)[..|a + b| - 1] == a + b[..|b| - 1];
      LastOverAppend(a, b[..|b| - 1], reading, none);
    }
  }

  lemma {:induction false} LastOverElse<T>(ids: seq<int>, reading: int -> Option<T>, none: Option<T>)
    ensures LastOver(ids, reading, none)
         == if forall id :: id in ids ==> reading(id).None? then none else LastOver(ids, reading, None)
  {
    if ids != [] {
      var last := ids[|ids| - 1];
      LastOverElse(ids[..|ids| - 1], reading, none);
      assert forall id :: id in ids <==> id in ids[..|ids| - 1] || id == last;
    }
  }

  // Swapping two neighbours matters exactly if both have readings, these differ, and nobody behind has one.
  lemma SwappedLastOver<T>(front: seq<int>, x: int, y: int, back: seq<int>, reading: int -> Option<T>, none: Option<T>)
    ensures LastOver(front + [x, y] + back, reading, none) != LastOver(front + [y, x] + back, reading, none) <==>
            reading(x).Some? && reading(y).Some? && reading(x) != reading(y) && forall id :: id in back ==> reading(id).None?
    ensures LastOver(front + [x, y] + back, reading, none) != LastOver(front + [y, x] + back, reading, none) ==>
              && LastOver(front + [x, y] + back, reading, none) == reading(y)
              && LastOver(front + [y, x] + back, reading, none) == reading(x)
  {
    var start := LastOver(front, reading, none);
    LastOverAppend(front + [x, y], back, reading, none);
    LastOverAppend(front + [y, x], back, reading, none);
    LastOverAppend(front, [x, y], reading, none);
    LastOverAppend(front, [y, x], reading, none);
    LastOverPair(x, y, reading, start);
    LastOverPair(y, x, reading, start);
    LastOverElse(back, reading, LastOver(front + [x, y], reading, none));
    LastOverElse(back, reading, LastOver(front + [y, x], reading, none));
  }

  lemma LastOverPair<T>(x: int, y: int, reading: int -> Option<T>, none: Option<T>)
    ensures LastOver([x, y], reading, none)
         == if reading(y).Some? then reading(y) else if reading(x).Some? then reading(x) else none
  {
    assert [x, y][..1] == [x] && [x][..0] == [];
    assert LastOver([x], reading, none) == if reading(x).Some? then reading(x) else none;
  }

  /** Both messages are about devices of the list, two different ones that are not listed yet. */
  predicate BothNew(before: seq<Telemetry>, a: Telemetry, b: Telemetry, list: DeviceList) {
    && ListOf(a.service) == Some(list) && ListOf(b.service) == Some(list) && a.instance != b.instance
    && a.instance !in FirstAppearances(before, list) && b.instance !in FirstAppearances(before, list)
  }

  // The instances listed behind the first n.
  function ListedBehind(history: seq<Telemetry>, list: DeviceList, n: nat): seq<int> {
    var ids := FirstAppearances(history, list);
    if n <= |ids| then ids[n..] else []
  }

  // How a message extends a list.
  function Extended(ids: seq<int>, t: Telemetry, list: DeviceList): seq<int> {
    if ListOf(t.service) == Some(list) && t.instance !in ids then ids + [t.instance] else ids
  }

  lemma AppearancesStep(history: seq<Telemetry>, t: Telemetry, list: DeviceList)
    ensures FirstAppearances(history + [t], list) == Extended(FirstAppearances(history, list), t, list)
  {
    assert (history + [t])[..|history|] == history;
  }

  lemma AppearancesTwo(before: seq<Telemetry>, a: Telemetry, b: Telemetry, list: DeviceList)
    ensures FirstAppearances(before + [a, b], list) == Extended(Extended(FirstAppearances(before, list), a, list), b, list)
  {
    AppearancesStep(before, a, list);
    AppearancesStep(before + [a], b, list);
    assert before + [a] + [b] == before + [a, b];
  }

  // Two lists with the same members go on in the same way.
  lemma {:induction false} SameContinuation(h1: seq<Telemetry>, h2: seq<Telemetry>, after: seq<Telemetry>, list: DeviceList)
    returns (back: seq<int>)
    requires forall id :: id in FirstAppearances(h1, list) <==> id in FirstAppearances(h2, list)
    ensures FirstAppearances(h1 + after, list) == FirstAppearances(h1, list) + back
    ensures FirstAppearances(h2 + after, list) == FirstAppearances(h2, list) + back
  {
    hide FirstAppearances;
    if after == [] {
      back := [];
      assert h1 + after == h1 && h2 + after == h2;
    } else {
      var init, t := after[..|after| - 1], after[|after| - 1];
      back := SameContinuation(h1, h2, init, list);
      assert h1 + init + [t] == h1 + after && h2 + init + [t] == h2 + after;
      AppearancesStep(h1 + init, t, list);
      AppearancesStep(h2 + init, t, list);
      var one, two := FirstAppearances(h1, list), FirstAppearances(h2, list);
      assert t.instance in one + back <==> t.instance in two + back;
      if ListOf(t.service) == Some(list) && t.instance !in one + back {
        assert one + back + [t.instance] == one + (back + [t.instance]);
        assert two + back + [t.instance] == two + (back + [t.instance]);
        back := back + [t.instance];
      }
    }
  }

  // What a swap does to the order of a list: it exchanges two new instances, and otherwise nothing.
  lemma SwappedAppearances(before: seq<Telemetry>, a: Telemetry, b: Telemetry, after: seq<Telemetry>, list: DeviceList)
    returns (back: seq<int>)
    ensures var front := FirstAppearances(before, list);
            var h1, h2 := before + [a, b] + after, before + [b, a] + after;
            && (BothNew(before, a, b, list) ==>
                  && FirstAppearances(h1, list) == front + [a.instance, b.instance] + back
                  && FirstAppearances(h2, list) == front + [b.instance, a.instance] + back
                  && ListedBehind(h1, list, |front| + 2) == back)
            && (!BothNew(before, a, b, list) ==> FirstAppearances(h1, list) == FirstAppearances(h2, list))
  {
    hide FirstAppearances;
    var front := FirstAppearances(before, list);
    AppearancesTwo(before, a, b, list);
    AppearancesTwo(before, b, a, list);
    var one, two := FirstAppearances(before + [a, b], list), FirstAppearances(before + [b, a], list);
    assert BothNew(before, a, b, list) ==> one == front + [a.instance, b.instance] && two == front + [b.instance, a.instance];
    back := SameContinuation(before + [a, b], before + [b, a], after, list);
  }

  /** When swapping two adjacent messages of different cells changes the last reading over a list, given the
      reading each instance ends up with: exactly if both messages first mention a device of it, these end up
      with different readings, and no device listed later has a reading. */
  ghost predicate SwapMatters<T>(before: seq<Telemetry>, a: Telemetry, b: Telemetry, after: seq<Telemetry>,
          list: DeviceList, reading: int -> Option<T>)
  {
    && BothNew(before, a, b, list)
    && reading(a.instance).Some? && reading(b.instance).Some? && reading(a.instance) != reading(b.instance)
    && forall id :: id in ListedBehind(before + [a, b] + after, list, |FirstAppearances(before, list)| + 2) ==> reading(id).None?
  }

  lemma LastOverSwapIff<T>(before: seq<Telemetry>, a: Telemetry, b: Telemetry, after: seq<Telemetry>,
          list: DeviceList, reading: int -> Option<T>, none: Option<T>)
    ensures LastOver(FirstAppearances(before + [a, b] + after, list), reading, none)
         != LastOver(FirstAppearances(before + [b, a] + after, list), reading, none)
       <==> SwapMatters(before, a, b, after, list, reading)
    ensures SwapMatters(before, a, b, after, list, reading) ==>
              && LastOver(FirstAppearances(before + [a, b] + after, list), reading, none) == reading(b.instance)
              && LastOver(FirstAppearances(before + [b, a] + after, list), reading, none) == reading(a.instance)
  {
    hide FirstAppearances, ListedBehind, LastOver;
    var back := SwappedAppearances(before, a, b, after, list);
    if BothNew(before, a, b, list) {
      SwappedLastOver(FirstAppearances(before, list), a.instance, b.instance, back, reading, none);
    }
  }

  // The nonzero value each instance of a list last reported for a quantity.
  function LastReadings(history: seq<Telemetry>, list: DeviceList, q: Quantity): int -> Option<real> {
    id => Nonzero(Latest(history, DeviceCell(list, id, q)))
  }

  lemma VoltageOfHistory(history: seq<Telemetry>)
    ensures LastKnown(After(history).batteries, VoltageOf, None)
         == LastOver(FirstAppearances(history, Batteries), LastReadings(history, Batteries, Voltage), None)
  {
    hide After, LastKnown, LastOver, FirstAppearances, Instances, Lookup, LastValue, Latest;
    var list, f := After(history).batteries, LastReadings(history, Batteries, Voltage);
    ListsInOrderOfAppearance(history, Batteries);
    forall id ensures VoltageOf(Lookup(list, id, NO_BATTERY)) == f(id) {
      NumberShown(history, DeviceCell(Batteries, id, Voltage));
    }
    LastKnownIsLastOver(list, |list|, VoltageOf, NO_BATTERY, f, None);
    assert list[..|list|] == list && Instances(list)[..|list|] == Instances(list);
  }

  lemma SocOfHistory(history: seq<Telemetry>)
    ensures LastKnown(After(history).batteries, SocOf, None)
         == LastOver(FirstAppearances(history, Batteries), LastReadings(history, Batteries, Soc), None)
    ensures After(history).system.batterySoc == Latest(history, SystemCell(BatterySocTotal))
  {
    hide After, LastKnown, LastOver, FirstAppearances, Instances, Lookup, LastValue, Latest;
    var list, f := After(history).batteries, LastReadings(history, Batteries, Soc);
    ListsInOrderOfAppearance(history, Batteries);
    forall id ensures SocOf(Lookup(list, id, NO_BATTERY)) == f(id) {
      NumberShown(history, DeviceCell(Batteries, id, Soc));
    }
    LastKnownIsLastOver(list, |list|, SocOf, NO_BATTERY, f, None);
    assert list[..|list|] == list && Instances(list)[..|list|] == Instances(list);
    NumberShown(history, SystemCell(BatterySocTotal));
  }

  lemma InputVoltageOfHistory(history: seq<Telemetry>)
    ensures LastKnown(After(history).vebus, InputVoltageOf, None)
         == LastOver(FirstAppearances(history, VebusDevices), LastReadings(history, VebusDevices, ActiveInVoltage), None)
  {
    hide After, LastKnown, LastOver, FirstAppearances, Instances, Lookup, LastValue, Latest;
    var list, f := After(history).vebus, LastReadings(history, VebusDevices, ActiveInVoltage);
    ListsInOrderOfAppearance(history, VebusDevices);
    forall id ensures InputVoltageOf(Lookup(list, id, NO_VEBUS)) == f(id) {
      NumberShown(history, DeviceCell(VebusDevices, id, ActiveInVoltage));
    }
    LastKnownIsLastOver(list, |list|, InputVoltageOf, NO_VEBUS, f, None);
    assert list[..|list|] == list && Instances(list)[..|list|] == Instances(list);
  }

  // The flag and the input each inverter last reported.
  function LastFlags(history: seq<Telemetry>): int -> Option<bool> {
    id => match LastValue(history, DeviceCell(VebusDevices, id, ActiveInConnected))
          case Some(v) => Some(v > 0.0)
          case None => None
  }

  function LastInputs(history: seq<Telemetry>): int -> Option<real> {
    id => LastValue(history, DeviceCell(VebusDevices, id, ActiveInput))
  }

  lemma IndicatorsOfHistory(history: seq<Telemetry>)
    ensures LastKnown(After(history).vebus, ConnectedOf, None)
         == LastOver(FirstAppearances(history, VebusDevices), LastFlags(history), None)
    ensures LastKnown(After(history).vebus, ActiveInputOf, After(history).system.acActiveInSource)
         == LastOver(FirstAppearances(history, VebusDevices), LastInputs(history),
                     LastValue(history, SystemCell(ActiveInSourceTotal)))
  {
    hide After, LastKnown, LastOver, FirstAppearances, Instances, Lookup, LastValue;
    var list, source := After(history).vebus, LastValue(history, SystemCell(ActiveInSourceTotal));
    ListsInOrderOfAppearance(history, VebusDevices);
    SnapshotShowsLastValues(history, SystemCell(ActiveInSourceTotal));
    forall id ensures ConnectedOf(Lookup(list, id, NO_VEBUS)) == LastFlags(history)(id) {
      SnapshotShowsLastValues(history, DeviceCell(VebusDevices, id, ActiveInConnected));
    }
    forall id ensures ActiveInputOf(Lookup(list, id, NO_VEBUS)) == LastInputs(history)(id) {
      SnapshotShowsLastValues(history, DeviceCell(VebusDevices, id, ActiveInput));
    }
    LastKnownIsLastOver(list, |list|, ConnectedOf, NO_VEBUS, LastFlags(history), None);
    LastKnownIsLastOver(list, |list|, ActiveInputOf, NO_VEBUS, LastInputs(history), source);
    assert list[..|list|] == list && Instances(list)[..|list|] == Instances(list);
  }

  /** The last reading over some instances is that of the instance behind which nobody has one. */
  lemma {:induction false} LastOverIs<T>(ids: seq<int>, reading: int -> Option<T>, none: Option<T>, k: nat)
    requires k <= |ids| && forall m :: k <= m < |ids| ==> reading(ids[m]).None?
    ensures k == 0 ==> LastOver(ids, reading, none) == none
    ensures k > 0 && reading(ids[k - 1]).Some? ==> LastOver(ids, reading, none) == reading(ids[k - 1])
  {
    if k < |ids| {
      LastOverIs(ids[..|ids| - 1], reading, none, k);
    }
  }

  /** The other figures of the summary in terms of the history alone. The AC input is connected as the last flag
      says; without a flag, exactly if the last active input, or else the last source, is not 240; without
      either, exactly if the last nonzero input voltage is at least 100 volts. */
  lemma FiguresOfHistory(history: seq<Telemetry>)
    ensures var total := Latest(history, SystemCell(BatterySocTotal));
            BatterySoc(After(history)) ==
            if total != 0.0 then Some(total)
            else LastOver(FirstAppearances(history, Batteries), LastReadings(history, Batteries, Soc), None)
    ensures BatteryVoltage(After(history)) ==
            match LastOver(FirstAppearances(history, Batteries), LastReadings(history, Batteries, Voltage), None)
            case Some(v) => v
            case None => 0.0
    ensures InputVoltage(After(history)) ==
            match LastOver(FirstAppearances(history, VebusDevices), LastReadings(history, VebusDevices, ActiveInVoltage), None)
            case Some(v) => v
            case None => 0.0
    ensures InputConnected(After(history)) ==
            match LastOver(FirstAppearances(history, VebusDevices), LastFlags(history), None)
            case Some(flag) => flag
            case None =>
              match LastOver(FirstAppearances(history, VebusDevices), LastInputs(history),
                             LastValue(history, SystemCell(ActiveInSourceTotal)))
              case Some(input) => input != 240.0
              case None =>
                match LastOver(FirstAppearances(history, VebusDevices),
                               LastReadings(history, VebusDevices, ActiveInVoltage), None)
                case Some(v) => v >= 100.0
                case None => false
  {
    hide After, LastKnown, LastOver, FirstAppearances, LastReadings, LastFlags, LastInputs, LastValue, Latest;
    SocOfHistory(history);
    VoltageOfHistory(history);
    InputVoltageOfHistory(history);
    IndicatorsOfHistory(history);
  }

  // Readings that agree everywhere give the same last one.
  lemma {:induction false} SameReadings<T>(ids: seq<int>, f: int -> Option<T>, g: int -> Option<T>, none: Option<T>)
    requires forall id :: f(id) == g(id)
    ensures LastOver(ids, f, none) == LastOver(ids, g, none)
  {
    if ids != [] {
      SameReadings(ids[..|ids| - 1], f, g, none);
      assert f(ids[|ids| - 1]) == g(ids[|ids| - 1]);
    }
  }

  lemma SwapKeepsLastValues(before: seq<Telemetry>, a: Telemetry, b: Telemetry, after: seq<Telemetry>)
    requires CellOf(a).None? || CellOf(a) != CellOf(b)
    ensures SameLastValues(before + [a, b] + after, before + [b, a] + after)
  {
    var h1, h2 := before + [a, b] + after, before + [b, a] + after;
    SwapKeepsCellOrders(before, a, b, after);
    forall cell ensures LastValue(h1, cell) == LastValue(h2, cell) {
      hide WrittenTo, LastValue;
      LastValueIsLastWritten(h1, cell);
      LastValueIsLastWritten(h2, cell);
    }
  }

  lemma NonzeroReadings(x: Option<real>, y: Option<real>)
    requires (x.Some? ==> x.value != 0.0) && (y.Some? ==> y.value != 0.0)
    ensures OrZero(x) != OrZero(y) <==> x != y
  {
  }

  lemma {:induction false} LastReadingNonzero(ids: seq<int>, reading: int -> Option<real>)
    requires forall id :: reading(id).Some? ==> reading(id).value != 0.0
    ensures LastOver(ids, reading, None).Some? ==> LastOver(ids, reading, None).value != 0.0
  {
    if ids != [] {
      LastReadingNonzero(ids[..|ids| - 1], reading);
    }
  }

  // The last nonzero reading of one quantity over a list, after a history and after a swap in it.
  lemma ReadingSwapIff(before: seq<Telemetry>, a: Telemetry, b: Telemetry, after: seq<Telemetry>, list: DeviceList, q: Quantity)
    requires CellOf(a).None? || CellOf(a) != CellOf(b)
    ensures var h1, h2 := before + [a, b] + after, before + [b, a] + after;
            var one := LastOver(FirstAppearances(h1, list), LastReadings(h1, list, q), None);
            var two := LastOver(FirstAppearances(h2, list), LastReadings(h2, list, q), None);
            var readings := LastReadings(h1, list, q);
            && (one != two <==> SwapMatters(before, a, b, after, list, readings))
            && (SwapMatters(before, a, b, after, list, readings) ==> one == readings(b.instance) && two == readings(a.instance))
            && (OrZero(one) != OrZero(two) <==> one != two)
  {
    hide LastOver, FirstAppearances, LastValue, SwapMatters;
    var h1, h2 := before + [a, b] + after, before + [b, a] + after;
    var f, g := LastReadings(h1, list, q), LastReadings(h2, list, q);
    SwapKeepsLastValues(before, a, b, after);
    forall id ensures f(id) == g(id) {
      assert LastValue(h1, DeviceCell(list, id, q)) == LastValue(h2, DeviceCell(list, id, q));
    }
    SameReadings(FirstAppearances(h2, list), f, g, None);
    LastOverSwapIff(before, a, b, after, list, f, None);
    LastReadingNonzero(FirstAppearances(h1, list), f);
    LastReadingNonzero(FirstAppearances(h2, list), g);
    NonzeroReadings(LastOver(FirstAppearances(h1, list), f, None), LastOver(FirstAppearances(h2, list), g, None));
  }

  /** Swapping two adjacent messages of different cells, anywhere in a history, changes the battery voltage if
      and only if they first mention two different batteries, whose final voltages are nonzero and different,
      and no battery listed later has a nonzero one. */
  lemma VoltageSwapIff(before: seq<Telemetry>, a: Telemetry, b: Telemetry, after: seq<Telemetry>)
    requires CellOf(a).None? || CellOf(a) != CellOf(b)
    ensures var h1, h2 := before + [a, b] + after, before + [b, a] + after;
            BatteryVoltage(After(h1)) != BatteryVoltage(After(h2)) <==>
            SwapMatters(before, a, b, after, Batteries, LastReadings(h1, Batteries, Voltage))
  {
    hide After, LastKnown, LastOver, FirstAppearances, LastReadings, SwapMatters, OrZero;
    VoltageOfHistory(before + [a, b] + after);
    VoltageOfHistory(before + [b, a] + after);
    ReadingSwapIff(before, a, b, after, Batteries, Voltage);
  }

  /** The same for the state of charge, while no system total overrides it. */
  lemma SocSwapIff(before: seq<Telemetry>, a: Telemetry, b: Telemetry, after: seq<Telemetry>)
    requires CellOf(a).None? || CellOf(a) != CellOf(b)
    ensures var h1, h2 := before + [a, b] + after, before + [b, a] + after;
            BatterySoc(After(h1)) != BatterySoc(After(h2)) <==>
            && Latest(h1, SystemCell(BatterySocTotal)) == 0.0
            && SwapMatters(before, a, b, after, Batteries, LastReadings(h1, Batteries, Soc))
  {
    hide After, LastKnown, LastOver, FirstAppearances, LastReadings, SwapMatters, OrZero, LastValue, SameLastValues;
    var h1, h2 := before + [a, b] + after, before + [b, a] + after;
    SocOfHistory(h1);
    SocOfHistory(h2);
    ReadingSwapIff(before, a, b, after, Batteries, Soc);
    SwapKeepsLastValues(before, a, b, after);
    LastValuesAgree(h1, h2, SystemCell(BatterySocTotal));
  }

  lemma LastValuesAgree(h1: seq<Telemetry>, h2: seq<Telemetry>, cell: Cell)
    requires SameLastValues(h1, h2)
    ensures LastValue(h1, cell) == LastValue(h2, cell) && Latest(h1, cell) == Latest(h2, cell)
  {
    hide LastValue;
  }

  /** The same for the AC input voltage. */
  lemma InputVoltageSwapIff(before: seq<Telemetry>, a: Telemetry, b: Telemetry, after: seq<Telemetry>)
    requires CellOf(a).None? || CellOf(a) != CellOf(b)
    ensures var h1, h2 := before + [a, b] + after, before + [b, a] + after;
            InputVoltage(After(h1)) != InputVoltage(After(h2)) <==>
            SwapMatters(before, a, b, after, VebusDevices, LastReadings(h1, VebusDevices, ActiveInVoltage))
    ensures var h1, h2 := before + [a, b] + after, before + [b, a] + after;
            var voltages := LastReadings(h1, VebusDevices, ActiveInVoltage);
            SwapMatters(before, a, b, after, VebusDevices, voltages) ==>
              && InputVoltage(After(h1)) == OrZero(voltages(b.instance))
              && InputVoltage(After(h2)) == OrZero(voltages(a.instance))
  {
    hide After, LastKnown, LastOver, FirstAppearances, LastReadings, SwapMatters, OrZero;
    InputVoltageOfHistory(before + [a, b] + after);
    InputVoltageOfHistory(before + [b, a] + after);
    ReadingSwapIff(before, a, b, after, VebusDevices, ActiveInVoltage);
  }

  /** The same for the two indicators that decide whether the AC input is connected. */
  lemma IndicatorSwapIff(before: seq<Telemetry>, a: Telemetry, b: Telemetry, after: seq<Telemetry>)
    requires CellOf(a).None? || CellOf(a) != CellOf(b)
    ensures var h1, h2 := before + [a, b] + after, before + [b, a] + after;
            var flags, inputs := LastFlags(h1), LastInputs(h1);
            && (KnownFlag(After(h1)) != KnownFlag(After(h2)) <==> SwapMatters(before, a, b, after, VebusDevices, flags))
            && (KnownInput(After(h1)) != KnownInput(After(h2)) <==> SwapMatters(before, a, b, after, VebusDevices, inputs))
            && (SwapMatters(before, a, b, after, VebusDevices, flags) ==>
                  KnownFlag(After(h1)) == flags(b.instance) && KnownFlag(After(h2)) == flags(a.instance))
            && (SwapMatters(before, a, b, after, VebusDevices, inputs) ==>
                  KnownInput(After(h1)) == inputs(b.instance) && KnownInput(After(h2)) == inputs(a.instance))
  {
    hide After, LastKnown, LastOver, FirstAppearances, LastValue, SwapMatters, SameLastValues;
    var h1, h2 := before + [a, b] + after, before + [b, a] + after;
    IndicatorsOfHistory(h1);
    IndicatorsOfHistory(h2);
    SwapKeepsLastValues(before, a, b, after);
    forall id ensures LastFlags(h1)(id) == LastFlags(h2)(id) && LastInputs(h1)(id) == LastInputs(h2)(id) {
      LastValuesAgree(h1, h2, DeviceCell(VebusDevices, id, ActiveInConnected));
      LastValuesAgree(h1, h2, DeviceCell(VebusDevices, id, ActiveInput));
    }
    LastValuesAgree(h1, h2, SystemCell(ActiveInSourceTotal));
    SameReadings(FirstAppearances(h2, VebusDevices), LastFlags(h1), LastFlags(h2), None);
    SameReadings(FirstAppearances(h2, VebusDevices), LastInputs(h1), LastInputs(h2), LastValue(h1, SystemCell(ActiveInSourceTotal)));
    LastOverSwapIff(before, a, b, after, VebusDevices, LastFlags(h1), None);
    LastOverSwapIff(before, a, b, after, VebusDevices, LastInputs(h1), LastValue(h1, SystemCell(ActiveInSourceTotal)));
  }

  /** Swapping two adjacent messages of different cells changes whether the AC input counts as connected if and
      only if it exchanges the deciding indicator for one that says the opposite: the last flag; or, while no
      flag is known, the last active input, just one of the two being none; or, while no indicator is known
      at all, the last voltage, just one of the two reaching the threshold. */
  lemma InputConnectedSwapIff(before: seq<Telemetry>, a: Telemetry, b: Telemetry, after: seq<Telemetry>)
    requires CellOf(a).None? || CellOf(a) != CellOf(b)
    ensures var h1, h2 := before + [a, b] + after, before + [b, a] + after;
            var inputs, voltages := LastInputs(h1), LastReadings(h1, VebusDevices, ActiveInVoltage);
            InputConnected(After(h1)) != InputConnected(After(h2)) <==>
            || SwapMatters(before, a, b, after, VebusDevices, LastFlags(h1))
            || (&& KnownFlag(After(h1)).None? && SwapMatters(before, a, b, after, VebusDevices, inputs)
                && (inputs(a.instance) == Some(AC_ACTIVE_INPUT_NONE) || inputs(b.instance) == Some(AC_ACTIVE_INPUT_NONE)))
            || (&& KnownFlag(After(h1)).None? && KnownInput(After(h1)).None?
                && SwapMatters(before, a, b, after, VebusDevices, voltages)
                && (OrZero(voltages(a.instance)) >= AC_INPUT_CONNECTED_VOLTAGE)
                != (OrZero(voltages(b.instance)) >= AC_INPUT_CONNECTED_VOLTAGE))
  {
    hide After, LastKnown, LastReadings, LastFlags, LastInputs, OrZero, InputVoltage;
    var h1 := before + [a, b] + after;
    IndicatorSwapIff(before, a, b, after);
    InputVoltageSwapIff(before, a, b, after);
    MattersBetweenKnown(before, a, b, after, VebusDevices, LastFlags(h1));
    MattersBetweenKnown(before, a, b, after, VebusDevices, LastInputs(h1));
    hide SwapMatters;
  }

  /** The grid power changes with the connection of the input, while there is no meter and the balance is
      positive, and never otherwise. */
  lemma GridSwapIff(before: seq<Telemetry>, a: Telemetry, b: Telemetry, after: seq<Telemetry>)
    requires CellOf(a).None? || CellOf(a) != CellOf(b)
    ensures var s1, s2 := After(before + [a, b] + after), After(before + [b, a] + after);
            GridPower(s1) != GridPower(s2) <==>
            GridTotal(s1.system) == 0.0 && Balance(s1) > 0.0 && InputConnected(s1) != InputConnected(s2)
  {
    hide After, BatteryPower, SolarPower, AcLoadPower, InputConnected, LastValue, SameLastValues;
    var h1, h2 := before + [a, b] + after, before + [b, a] + after;
    PowersIgnoreSwap(before, a, b, after);
    SwapKeepsLastValues(before, a, b, after);
    GridOfHistory(h1);
    GridOfHistory(h2);
    LastValuesAgree(h1, h2, SystemCell(Grid(L1)));
    LastValuesAgree(h1, h2, SystemCell(Grid(L2)));
    LastValuesAgree(h1, h2, SystemCell(Grid(L3)));
  }

  lemma GridOfHistory(history: seq<Telemetry>)
    ensures GridTotal(After(history).system)
         == Latest(history, SystemCell(Grid(L1))) + Latest(history, SystemCell(Grid(L2))) + Latest(history, SystemCell(Grid(L3)))
  {
    hide After, LastValue, Latest;
    NumberShown(history, SystemCell(Grid(L1)));
    NumberShown(history, SystemCell(Grid(L2)));
    NumberShown(history, SystemCell(Grid(L3)));
  }

  lemma MattersBetweenKnown<T>(before: seq<Telemetry>, a: Telemetry, b: Telemetry, after: seq<Telemetry>,
          list: DeviceList, reading: int -> Option<T>)
    ensures SwapMatters(before, a, b, after, list, reading) ==>
              reading(a.instance).Some? && reading(b.instance).Some? && reading(a.instance) != reading(b.instance)
  {
  }

  /** Two messages of different batteries show that the order does matter for the voltage. */
  lemma VoltageDependsOnOrder()
    ensures exists a, b :: CellOf(a).Some? && CellOf(b).Some? && CellOf(a) != CellOf(b)
              && BatteryVoltage(After([a, b])) != BatteryVoltage(After([b, a]))
  {
    var a := Telemetry("", BatteryService, 1, Dc0Voltage, 12.0, "");
    var b := Telemetry("", BatteryService, 2, Dc0Voltage, 24.0, "");
    var h := [] + [a, b] + [];
    assert h == [a, b] && [] + [b, a] + [] == [b, a];
    assert FirstAppearances(h, Batteries) == [1, 2] by {
      AppearancesTwo([], a, b, Batteries);
      assert [] + [a, b] == [a, b];
    }
    assert h[..1] == [a];
    assert LastValue(h, DeviceCell(Batteries, 2, Voltage)) == Some(24.0);
    assert LastValue([a], DeviceCell(Batteries, 1, Voltage)) == Some(12.0);
    assert LastValue(h, DeviceCell(Batteries, 1, Voltage)) == Some(12.0);
    assert SwapMatters([], a, b, [], Batteries, LastReadings(h, Batteries, Voltage));
    hide SwapMatters, BatteryVoltage, After;
    VoltageSwapIff([], a, b, []);
  }

  /** A measured voltage is no evidence of a connected input once any explicit indicator is known. */
  lemma {:induction false} IndicatorBeatsVoltage(s1: Snapshot, s2: Snapshot)
    requires |s1.vebus| == |s2.vebus|
    requires forall i :: 0 <= i < |s1.vebus| ==>
               && s1.vebus[i].data.activeInConnected == s2.vebus[i].data.activeInConnected
               && s1.vebus[i].data.activeInput == s2.vebus[i].data.activeInput
    requires s1.system.acActiveInSource == s2.system.acActiveInSource
    requires s1.system.acActiveInSource.Some? || (exists i ::
               0 <= i < |s1.vebus| && (s1.vebus[i].data.activeInConnected.Some? || s1.vebus[i].data.activeInput.Some?))
    ensures InputConnected(s1) == InputConnected(s2)
  {
    var source := s1.system.acActiveInSource;
    SameKnown(s1.vebus, s2.vebus, ConnectedOf, None);
    SameKnown(s1.vebus, s2.vebus, ActiveInputOf, source);
    if source.None? {
      var i :| 0 <= i < |s1.vebus| && (s1.vebus[i].data.activeInConnected.Some? || s1.vebus[i].data.activeInput.Some?);
      if s1.vebus[i].data.activeInConnected.Some? {
        SomeKnown(s1.vebus, ConnectedOf, None, i);
      } else {
        SomeKnown(s1.vebus, ActiveInputOf, source, i);
      }
    } else {
      SourceKnown(s1.vebus, ActiveInputOf, source);
    }
  }

  lemma {:induction false} SameKnown<R, T>(xs: seq<Entry<R>>, ys: seq<Entry<R>>, reading: R -> Option<T>,
          none: Option<T>)
    requires |xs| == |ys| && forall i :: 0 <= i < |xs| ==> reading(xs[i].data) == reading(ys[i].data)
    ensures LastKnown(xs, reading, none) == LastKnown(ys, reading, none)
  {
    if xs != [] {
      SameKnown(xs[..|xs| - 1], ys[..|ys| - 1], reading, none);
    }
  }

  lemma {:induction false} SomeKnown<R, T>(list: seq<Entry<R>>, reading: R -> Option<T>, none: Option<T>, i: nat)
    requires i < |list| && reading(list[i].data).Some?
    ensures LastKnown(list, reading, none).Some?
  {
    if i < |list| - 1 {
      SomeKnown(list[..|list| - 1], reading, none, i);
    }
  }

  lemma {:induction false} SourceKnown<R, T>(list: seq<Entry<R>>, reading: R -> Option<T>, none: Option<T>)
    requires none.Some?
    ensures LastKnown(list, reading, none).Some?
  {
    if list != [] {
      SourceKnown(list[..|list| - 1], reading, none);
    }
  }
}
