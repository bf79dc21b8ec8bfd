/**
 * The pressure chart: one bar per configured pressure, coloured by its
 * ratio to the configured threshold.
 */
module PressureChart {
  import opened Wrappers
  import opened DeviceTypes
  import opened DeviceDataMap

  /** One entry of `PRESSURE_CONFIG`. */
  datatype PressureConfig = PressureConfig(code: string, caption: string, threshold: real)

  const PRESSURE_CONFIG: seq<PressureConfig> := [
    PressureConfig("hightSupplyPressure", "高区供水", 1100.0),
    PressureConfig("hightReturnPressure", "高区回水", 1100.0),
    PressureConfig("lowSupplyPressure", "低区供水", 700.0),
    PressureConfig("lowReturnPressure", "低区回水", 700.0),
    PressureConfig("wellSupplyPressure", "井水供水", 100.0),
    PressureConfig("wellReturnPressure", "井水回水", 100.0)
  ]

  /** The result of a JavaScript division: a finite number, an infinity, or NaN (for `0 / 0`). */
  datatype Quotient = Finite(q: real) | PositiveInfinity | NegativeInfinity | NotANumber

  /** `value / threshold` */
  function Divide(value: real, threshold: real): Quotient
  {
    if threshold != 0.0 then Finite(value / threshold)
    else if value > 0.0 then PositiveInfinity
    else if value < 0.0 then NegativeInfinity
    else NotANumber
  }

  /** `q > c`: false for NaN. */
  predicate Above(q: Quotient, c: real)
  {
    match q
    case Finite(x) => x > c
    case PositiveInfinity => true
    case NegativeInfinity => false
    case NotANumber => false
  }

  /** `q < c`: false for NaN. */
  predicate Below(q: Quotient, c: real)
  {
    match q
    case Finite(x) => x < c
    case PositiveInfinity => false
    case NegativeInfinity => true
    case NotANumber => false
  }

  const RED: string := "#ef4444"
  const AMBER: string := "#f59e0b"
  const SLATE: string := "#64748b"
  const CYAN: string := "#06b6d4"

  /** `getPressureColor`: the ratio tested in order against 1.1, 0.95 and 0.2. */
  function PressureColor(value: real, threshold: real): string
  {
    var ratio := Divide(value, threshold);
    if Above(ratio, 1.1) then RED
    else if Above(ratio, 0.95) then AMBER
    else if Below(ratio, 0.2) then SLATE
    else CYAN
  }

  /**
   * With a positive threshold the colour is decided by bands of the reading:
   * red above 110% of the threshold, amber above 95%, slate below 20%, cyan
   * in between; exactly one of the four applies.
   */
  lemma PressureBands(value: real, threshold: real)
    requires threshold > 0.0
    ensures PressureColor(value, threshold) == RED <==> value > 1.1 * threshold
    ensures PressureColor(value, threshold) == AMBER <==> 0.95 * threshold < value <= 1.1 * threshold
    ensures PressureColor(value, threshold) == SLATE <==> value < 0.2 * threshold
    ensures PressureColor(value, threshold) == CYAN <==> 0.2 * threshold <= value <= 0.95 * threshold
  {
    RatioCompare(value, 1.1, threshold);
    RatioCompare(value, 0.95, threshold);
    RatioCompare(value, 0.2, threshold);
  }

  /** Dividing by a positive number keeps the order. */
  lemma RatioCompare(value: real, c: real, t: real)
    requires t > 0.0
    ensures value / t > c <==> value > c * t
    ensures value / t < c <==> value < c * t
  {
    var r := value / t;
    assert r * t == value;
    assert value - c * t == (r - c) * t;
    if r > c {
      assert (r - c) * t > 0.0;
    } else if r < c {
      assert (c - r) * t > 0.0;
    }
  }

  /** With a positive threshold, a zero reading (what a missing code defaults to) is slate. */
  lemma ZeroReadingSlate(threshold: real)
    requires threshold > 0.0
    ensures PressureColor(0.0, threshold) == SLATE
  {
  }

  /**
   * With a zero threshold, a positive reading is red, a negative one slate,
   * and zero (NaN) cyan. No configured threshold is zero, so this case is
   * defensive: it says what the colour function would do, not what the chart shows.
   */
  lemma ZeroThreshold(value: real)
    ensures value > 0.0 ==> PressureColor(value, 0.0) == RED
    ensures value < 0.0 ==> PressureColor(value, 0.0) == SLATE
    ensures value == 0.0 ==> PressureColor(value, 0.0) == CYAN
  {
  }

  /** Severity of a pressure colour: slate, cyan, amber, red. */
  function Severity(color: string): nat
  {
    if color == SLATE then 0 else if color == CYAN then 1 else if color == AMBER then 2 else 3
  }

  /** With a positive threshold a higher reading is never less severe. */
  lemma SeverityMonotone(x: real, y: real, threshold: real)
    requires threshold > 0.0 && x <= y
    ensures Severity(PressureColor(x, threshold)) <= Severity(PressureColor(y, threshold))
  {
    PressureBands(x, threshold);
    PressureBands(y, threshold);
  }

  /** One bar of `chartData`. */
  datatype PressureEntry = PressureEntry(name: string, value: Value, threshold: real)

  /** `chartData`: nothing without device data, otherwise one bar per configured pressure. */
  function ChartData(deviceData: seq<DeviceProperty>): (r: seq<PressureEntry>)
    ensures r == [] <==> deviceData == []
  {
    if |deviceData| == 0 then []
    else
      var m := BuildDataMap(deviceData);
      seq(|PRESSURE_CONFIG|, i requires 0 <= i < |PRESSURE_CONFIG| =>
        PressureEntry(PRESSURE_CONFIG[i].caption, Lookup(m, PRESSURE_CONFIG[i].code), PRESSURE_CONFIG[i].threshold))
  }

  /** The fill of a bar: the reading as a number against its threshold. */
  function EntryColor(e: PressureEntry): string
  {
    PressureColor(NumberOf(e.value), e.threshold)
  }

  /**
   * With device data there are six bars in configuration order, with the
   * thresholds 1100, 1100, 700, 700, 100, 100, each reading the last truthy
   * value recorded for its code; a pressure without a record reads 0 and is
   * coloured slate.
   */
  lemma ChartDataOfRecords(deviceData: seq<DeviceProperty>, i: nat)
    requires deviceData != [] && i < 6
    ensures |ChartData(deviceData)| == 6
    ensures ChartData(deviceData)[i].name == PRESSURE_CONFIG[i].caption
    ensures ChartData(deviceData)[i].threshold == [1100.0, 1100.0, 700.0, 700.0, 100.0, 100.0][i]
    ensures ChartData(deviceData)[i].value ==
      match LastValue(deviceData, PRESSURE_CONFIG[i].code)
      case Some(v) => if IsTruthy(v) then v else Num(0.0)
      case None => Num(0.0)
    ensures (forall t :: 0 <= t < |deviceData| ==> deviceData[t].code != PRESSURE_CONFIG[i].code) ==>
      ChartData(deviceData)[i].value == Num(0.0) && EntryColor(ChartData(deviceData)[i]) == SLATE
  {
    LookupLast(deviceData, PRESSURE_CONFIG[i].code);
    LastValueNone(deviceData, PRESSURE_CONFIG[i].code);
  }
}
