/**
 * The energy meter chart: one bar per electricity meter coloured by power
 * band, and the total power above the chart.
 */
module EnergyMeterChart {
  import opened Wrappers
  import opened DeviceTypes
  import opened Arrays
  import opened DeviceDataMap

  /** One entry of `POWER_METERS`. */
  datatype PowerMeter = PowerMeter(code: string, caption: string)

  const POWER_METERS: seq<PowerMeter> := [
    PowerMeter("electricMeterPowerFirst", "1#"),
    PowerMeter("electricMeterPowerSecond", "2#"),
    PowerMeter("electricMeterPowerThird", "3#"),
    PowerMeter("electricMeterPowerFourth", "4#"),
    PowerMeter("electricMeterPowerFifth", "5#"),
    PowerMeter("electricMeterPowerSixth", "6#")
  ]

  const LOW: string := "#22c55e"
  const MEDIUM: string := "#3b82f6"
  const HIGH: string := "#f59e0b"
  const CRITICAL: string := "#ef4444"

  /** `getColor`: below 10 low, below 30 medium, below 50 high, otherwise critical. */
  function PowerColor(value: real): string
  {
    if value < 10.0 then LOW
    else if value < 30.0 then MEDIUM
    else if value < 50.0 then HIGH
    else CRITICAL
  }

  /** Band of a power colour, lowest first. */
  function Band(color: string): nat
  {
    if color == LOW then 0 else if color == MEDIUM then 1 else if color == HIGH then 2 else 3
  }

  /** The colour bands, each as an interval of the reading. */
  lemma PowerBands(value: real)
    ensures PowerColor(value) == LOW <==> value < 10.0
    ensures PowerColor(value) == MEDIUM <==> 10.0 <= value < 30.0
    ensures PowerColor(value) == HIGH <==> 30.0 <= value < 50.0
    ensures PowerColor(value) == CRITICAL <==> value >= 50.0
  {
  }

  /** A higher reading never falls in a lower band. */
  lemma BandMonotone(x: real, y: real)
    requires x <= y
    ensures Band(PowerColor(x)) <= Band(PowerColor(y))
  {
  }

  /** One bar of `chartData`. */
  datatype MeterEntry = MeterEntry(name: string, fullLabel: string, value: Value)

  /** `chartData`: one bar per meter, read with `dataMap.get(code) || 0`. */
  function ChartData(deviceData: seq<DeviceProperty>): (r: seq<MeterEntry>)
    ensures |r| == |POWER_METERS|
  {
    var m := BuildDataMap(deviceData);
    seq(|POWER_METERS|, i requires 0 <= i < |POWER_METERS| =>
      MeterEntry(POWER_METERS[i].caption, POWER_METERS[i].caption + "电表", Lookup(m, POWER_METERS[i].code)))
  }

  /**
   * Bar `i` is named after meter `i`, its tooltip label is that name followed
   * by `电表`, and it reads the last truthy value recorded for the meter's
   * code, or 0.
   */
  lemma ChartDataOfRecords(deviceData: seq<DeviceProperty>, i: nat)
    requires i < 6
    ensures |ChartData(deviceData)| == 6
    ensures ChartData(deviceData)[i].name == POWER_METERS[i].caption
    ensures ChartData(deviceData)[i].fullLabel == ChartData(deviceData)[i].name + "电表"
    ensures ChartData(deviceData)[i].value ==
      match LastValue(deviceData, POWER_METERS[i].code)
      case Some(v) => if IsTruthy(v) then v else Num(0.0)
      case None => Num(0.0)
  {
    LookupLast(deviceData, POWER_METERS[i].code);
  }

  /** The readings of the bars, when every one of them is a number. */
  function Readings(entries: seq<MeterEntry>): seq<real>
    requires forall i :: 0 <= i < |entries| ==> entries[i].value.Num?
  {
    seq(|entries|, i requires 0 <= i < |entries| => entries[i].value.x)
  }

  /**
   * `chartData.reduce((sum, item) => sum + item.value, 0)`. `None` stands
   * for a sum that met a string value: `+` then concatenates text, which
   * this model does not follow.
   */
  function TotalPower(entries: seq<MeterEntry>): (r: Option<real>)
    ensures r.Some? <==> forall i :: 0 <= i < |entries| ==> entries[i].value.Num?
  {
    if entries == [] then Some(0.0)
    else
      var pre, last := entries[..|entries| - 1], entries[|entries| - 1];
      assert forall i :: 0 <= i < |pre| ==> pre[i] == entries[i];
      match TotalPower(pre)
      case Some(sum) => (match last.value case Num(x) => Some(sum + x) case Str(_) => None)
      case None => None
  }

  /** A numeric total is the sum of the readings, taken left to right. */
  lemma {:induction false} TotalIsSum(entries: seq<MeterEntry>)
    requires forall i :: 0 <= i < |entries| ==> entries[i].value.Num?
    ensures TotalPower(entries) == Some(Sum(Readings(entries)))
  {
    if entries != [] {
      var pre := entries[..|entries| - 1];
      TotalIsSum(pre);
      assert Readings(entries)[..|entries| - 1] == Readings(pre);
    }
  }

  /** With none of the meter codes recorded every bar reads 0, and so does the total. */
  lemma NoMetersTotalZero(deviceData: seq<DeviceProperty>)
    requires forall t, i :: 0 <= t < |deviceData| && 0 <= i < |POWER_METERS| ==> deviceData[t].code != POWER_METERS[i].code
    ensures TotalPower(ChartData(deviceData)) == Some(0.0)
  {
    var entries := ChartData(deviceData);
    forall i | 0 <= i < |entries|
      ensures entries[i].value == Num(0.0)
    {
      LookupLast(deviceData, POWER_METERS[i].code);
      LastValueNone(deviceData, POWER_METERS[i].code);
    }
    TotalIsSum(entries);
    SumNonNegative(Readings(entries));
  }

  /** Non-negative readings give a non-negative total. */
  lemma TotalNonNegative(deviceData: seq<DeviceProperty>)
    requires forall i :: 0 <= i < 6 ==> ChartData(deviceData)[i].value.Num? && ChartData(deviceData)[i].value.x >= 0.0
    ensures TotalPower(ChartData(deviceData)).Some? && TotalPower(ChartData(deviceData)).value >= 0.0
  {
    TotalIsSum(ChartData(deviceData));
    SumNonNegative(Readings(ChartData(deviceData)));
  }
}
