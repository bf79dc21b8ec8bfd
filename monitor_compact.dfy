/**
 * The compact monitor: six filter groups over the read-only records, the
 * value text and the value colour of one row.
 */
module MonitorCompact {
  import opened Wrappers
  import opened JsOps
  import opened DeviceTypes
  import opened Constants
  import opened Arrays
  import MonitorPanel

  // ---------------------------------------------------------------- groups

  /** The six groups of `groupedData`, in display order. */
  datatype Group = HeatPump | Temp | Pressure | Frequency | Power | Other

  /** The test each group puts on a record's code. */
  predicate Accepts(group: Group, code: string)
  {
    match group
    case HeatPump => Contains(code, "heatPumpStatus")
    case Temp => (Contains(code, "Temp") || Contains(code, "temp")) && !Contains(code, "heatPumpStatus")
    case Pressure => Contains(code, "Pressure") || Contains(code, "pressure")
    case Frequency => Contains(code, "Frequency") || Contains(code, "frequency")
    case Power => Contains(code, "ElectricityMeter") || Contains(code, "heatMeter")
    case Other => code == "outsideTemp" || code == "waterTankVolume" || code == "systemICOP"
  }

  /** The callback a group passes to `readOnly.filter`. */
  function Accepting(group: Group): DeviceProperty -> bool
  {
    (item: DeviceProperty) => Accepts(group, item.code)
  }

  /** The same group taken in one pass over all records: read-only and accepted. */
  function ReadOnlyIn(group: Group): DeviceProperty -> bool
  {
    (item: DeviceProperty) => item.accessMode == R && Accepts(group, item.code)
  }

  /** `groupedData`: one list of records per group. */
  datatype GroupedData = GroupedData(
    heatPump: seq<DeviceProperty>,
    temp: seq<DeviceProperty>,
    pressure: seq<DeviceProperty>,
    frequency: seq<DeviceProperty>,
    power: seq<DeviceProperty>,
    other: seq<DeviceProperty>)
  {
    /** The list shown for `group`. */
    function Items(group: Group): seq<DeviceProperty>
    {
      match group
      case HeatPump => heatPump
      case Temp => temp
      case Pressure => pressure
      case Frequency => frequency
      case Power => power
      case Other => other
    }
  }

  /** `groupedData`: every group filters the read-only records on its own. */
  function GroupData(deviceData: seq<DeviceProperty>): GroupedData
  {
    var readOnly := MonitorPanel.ReadOnly(deviceData);
    GroupedData(
      Filter(readOnly, Accepting(HeatPump)),
      Filter(readOnly, Accepting(Temp)),
      Filter(readOnly, Accepting(Pressure)),
      Filter(readOnly, Accepting(Frequency)),
      Filter(readOnly, Accepting(Power)),
      Filter(readOnly, Accepting(Other)))
  }

  /**
   * Each group is the single-pass filter of the records on "read-only and
   * accepted", so it keeps input order, and it holds exactly the read-only
   * records the group accepts.
   */
  lemma GroupIsFilter(deviceData: seq<DeviceProperty>, group: Group)
    ensures GroupData(deviceData).Items(group) == Filter(deviceData, ReadOnlyIn(group))
    ensures forall x :: x in GroupData(deviceData).Items(group) <==>
      x in deviceData && x.accessMode == R && Accepts(group, x.code)
  {
    FilterFilter(deviceData, MonitorPanel.IsReadOnly, Accepting(group), ReadOnlyIn(group));
  }

  /** The header count: the number of read-only records, as the panel counts them. */
  function Count(deviceData: seq<DeviceProperty>): (n: nat)
    ensures n <= |deviceData|
    ensures n == 0 <==> MonitorPanel.ShowsNoData(deviceData)
  {
    |MonitorPanel.ReadOnly(deviceData)|
  }

  /** No group is larger than the count in the header. */
  lemma GroupsWithinCount(deviceData: seq<DeviceProperty>, group: Group)
    ensures |GroupData(deviceData).Items(group)| <= Count(deviceData)
  {
  }

  /** `outsideTemp` passes both the temperature and the environment test. */
  lemma OutsideTempAccepted()
    ensures Accepts(Temp, "outsideTemp") && Accepts(Other, "outsideTemp")
  {
    var code := "outsideTemp";
    assert OccursAt(code, "Temp", 7);
    ContainsAt(code, "Temp", 7);
    NotContainsLonger(code, "heatPumpStatus");
  }

  /** The groups overlap: a read-only `outsideTemp` record is shown under both temperature and environment. */
  lemma OutsideTempInTwoGroups(deviceData: seq<DeviceProperty>, x: DeviceProperty)
    requires x in deviceData && x.accessMode == R && x.code == "outsideTemp"
    ensures x in GroupData(deviceData).temp && x in GroupData(deviceData).other
  {
    OutsideTempAccepted();
    GroupIsFilter(deviceData, Temp);
    GroupIsFilter(deviceData, Other);
  }

  /** The temperature group never shows a heat-pump status, so it shares no record with the heat-pump group. */
  lemma TempExcludesStatus(deviceData: seq<DeviceProperty>, x: DeviceProperty)
    ensures x in GroupData(deviceData).temp ==> !Contains(x.code, "heatPumpStatus")
    ensures !(x in GroupData(deviceData).temp && x in GroupData(deviceData).heatPump)
  {
    GroupIsFilter(deviceData, Temp);
    GroupIsFilter(deviceData, HeatPump);
  }

  /**
   * With distinct codes the heat-pump group holds the same records as the
   * panel's first category.
   */
  lemma HeatPumpGroupIsPanelCategory(deviceData: seq<DeviceProperty>, x: DeviceProperty)
    requires MonitorPanel.DistinctCodes(MonitorPanel.ReadOnly(deviceData))
    ensures x in GroupData(deviceData).heatPump <==>
      x in MonitorPanel.Placed(MonitorPanel.ReadOnly(deviceData), MonitorPanel.DATA_CATEGORIES, 0)
  {
    GroupIsFilter(deviceData, HeatPump);
    MonitorPanel.PlacedDistinct(MonitorPanel.ReadOnly(deviceData), MonitorPanel.DATA_CATEGORIES, 0);
  }

  // ---------------------------------------------------------------- one row

  /**
   * `formatValue`: a numeric heat-pump status gets its table label or
   * `状态码: N`; another number is written in decimal when it is an integer
   * and with `toFixed(1)` otherwise; a string is shown as it is. `None`
   * stands for a non-integral status, which would need `String(x)` of a
   * fraction.
   */
  function FormatValue(value: Value, code: string): (r: Option<string>)
    ensures value.Str? ==> r == Some(value.s)
    ensures r.None? <==> value.Num? && Contains(code, "heatPumpStatus") && !IsInteger(value.x)
  {
    match value
    case Str(s) => Some(s)
    case Num(x) =>
      if Contains(code, "heatPumpStatus") then
        (match HeatPumpLabel(x)
         case Some(text) => Some(text)
         case None => if IsInteger(x) then Some(MonitorPanel.STATUS_CODE_PREFIX + IntText(x.Floor)) else None)
      else Some(if IsInteger(x) then IntText(x.Floor) else ToFixed(x, 1))
  }

  /** A numeric status shows its table label when the code is known, otherwise `状态码: N`. */
  lemma FormatStatus(x: real, code: string)
    requires Contains(code, "heatPumpStatus") && IsInteger(x)
    ensures x.Floor in HEAT_PUMP_STATUS_MASK ==> FormatValue(Num(x), code) == Some(HEAT_PUMP_STATUS_MASK[x.Floor])
    ensures x.Floor !in HEAT_PUMP_STATUS_MASK ==> FormatValue(Num(x), code) == Some(MonitorPanel.STATUS_CODE_PREFIX + IntText(x.Floor))
  {
  }

  /**
   * The compact text is the panel's text without the unit: equal for a
   * status, a string, and an integer shown without a unit; otherwise the
   * panel appends a space and the unit to the integer. A fraction is
   * rounded to one place here and to two in the panel.
   */
  lemma FormatAgreesWithPanel(value: Value, unit: string, code: string)
    ensures Contains(code, "heatPumpStatus") || value.Str? || (IsInteger(value.x) && (unit == "" || unit == "-")) ==>
      FormatValue(value, code) == MonitorPanel.FormatValue(value, unit, code)
    ensures !Contains(code, "heatPumpStatus") && value.Num? && IsInteger(value.x) && unit != "" && unit != "-" ==>
      MonitorPanel.FormatValue(value, unit, code) == Some(FormatValue(value, code).value + " " + unit)
    ensures !Contains(code, "heatPumpStatus") && value.Num? && !IsInteger(value.x) ==>
      && FormatValue(value, code) == Some(ToFixed(value.x, 1))
      && MonitorPanel.FormatValue(value, "", code) == Some(ToFixed(value.x, 2))
  {
  }

  /** An integer reading that is not a status reads back from its text. */
  lemma FormatIntegerRoundTrip(n: nat, code: string)
    requires !Contains(code, "heatPumpStatus")
    ensures FormatValue(Num(n as real), code).Some?
    ensures TextToNumber(FormatValue(Num(n as real), code).value) == n as real
  {
    assert (n as real).Floor == n;
    TextToNumberOfText(n);
  }

  const DIM: string := "#64748b"

  /** `getStatusColor`: temperature bands, then frequency bands, else cyan. */
  function StatusColor(value: real, code: string): string
  {
    if Contains(code, "Temp") then
      (if value > 45.0 then MonitorPanel.RED else if value > 35.0 then MonitorPanel.AMBER
       else if value < 10.0 then MonitorPanel.BLUE else MonitorPanel.GREEN)
    else if Contains(code, "Frequency") then
      (if value == 0.0 then DIM else if value >= 50.0 then MonitorPanel.GREEN else MonitorPanel.AMBER)
    else MonitorPanel.CYAN
  }

  /** The colour of a row: `getStatusColor` for a number, cyan for anything else. */
  function DataItemColor(item: DeviceProperty): string
  {
    match item.value
    case Num(x) => StatusColor(x, item.code)
    case Str(_) => MonitorPanel.CYAN
  }

  /**
   * Against the panel's colouring: the same colour for a numeric temperature
   * and for a running frequency; a stopped frequency is `#64748b` here and
   * `#94a3b8` there; a pressure is always cyan here; a string is cyan here
   * and grey there.
   */
  lemma ColorsVersusPanel(item: DeviceProperty)
    ensures item.value.Num? && Contains(item.code, "Temp") ==>
      DataItemColor(item) == MonitorPanel.ValueColor(item.value, item.code)
    ensures item.value.Num? && !Contains(item.code, "Temp") && Contains(item.code, "Frequency") ==>
      (if item.value.x == 0.0
       then DataItemColor(item) == DIM && MonitorPanel.ValueColor(item.value, item.code) == MonitorPanel.SLATE
       else DataItemColor(item) == MonitorPanel.ValueColor(item.value, item.code))
    ensures item.value.Num? && !Contains(item.code, "Temp") && !Contains(item.code, "Frequency") ==>
      DataItemColor(item) == MonitorPanel.CYAN
    ensures item.value.Str? ==>
      DataItemColor(item) == MonitorPanel.CYAN && MonitorPanel.ValueColor(item.value, item.code) == MonitorPanel.GREY
  {
  }

  /** Frequency bands: `#64748b` when stopped, green from 50, amber in between. */
  lemma FrequencyColors(x: real, code: string)
    requires !Contains(code, "Temp") && Contains(code, "Frequency")
    ensures StatusColor(x, code) == DIM <==> x == 0.0
    ensures StatusColor(x, code) == MonitorPanel.GREEN <==> x >= 50.0
    ensures StatusColor(x, code) == MonitorPanel.AMBER <==> x != 0.0 && x < 50.0
  {
  }
}
