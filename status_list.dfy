/**
 * The device status list: the heat-pump cards with their status text and
 * run/warning classification, the pump frequency cards with their running
 * flag and bar width, all read through `dataMap.get(code) || 0`.
 */
module StatusList {
  import opened Wrappers
  import opened JsOps
  import opened Assoc
  import opened DeviceTypes
  import opened Constants
  import opened DeviceDataMap

  // ---------------------------------------------------------------- pump frequencies

  /** One entry of `FREQUENCY_CONFIG`: the code read, the long and the short caption. */
  datatype FrequencyConfig = FrequencyConfig(code: string, caption: string, short: string)

  const FREQUENCY_CONFIG: seq<FrequencyConfig> := [
    FrequencyConfig("hightCirculationPumpFrequencyFirst", "高区1#", "高1"),
    FrequencyConfig("hightCirculationPumpFrequencySecond", "高区2#", "高2"),
    FrequencyConfig("lowCirculationPumpFrequencyFirst", "低区1#", "低1"),
    FrequencyConfig("lowCirculationPumpFrequencySecond", "低区2#", "低2"),
    FrequencyConfig("lowCirculationPumpFrequencyThird", "低区3#", "低3"),
    FrequencyConfig("wellPumpFrequencyFirst", "深井1#", "井1"),
    FrequencyConfig("wellPumpFrequencySecond", "深井2#", "井2"),
    FrequencyConfig("wellPumpFrequencyThird", "深井3#", "井3"),
    FrequencyConfig("hightSupplyPumpFrequency", "补水(高)", "高补"),
    FrequencyConfig("lowSupplyPumpFrequency", "补水(低)", "低补")
  ]

  /** One entry of `frequencyData`: the configuration spread in, plus the value read. */
  datatype FrequencyEntry = FrequencyEntry(config: FrequencyConfig, value: Value)

  /** `frequencyData`: `FREQUENCY_CONFIG.map(config => ({...config, value: dataMap.get(config.code) || 0}))` */
  function FrequencyData(m: DataMap): (r: seq<FrequencyEntry>)
    ensures |r| == |FREQUENCY_CONFIG|
  {
    seq(|FREQUENCY_CONFIG|, i requires 0 <= i < |FREQUENCY_CONFIG| =>
      FrequencyEntry(FREQUENCY_CONFIG[i], Lookup(m, FREQUENCY_CONFIG[i].code)))
  }

  /**
   * Built from the records, entry `i` carries the `i`-th configuration and the
   * last truthy value recorded for its code; a pump with no record, or with
   * a falsy last value, reads 0.
   */
  lemma FrequencyDataOfRecords(deviceData: seq<DeviceProperty>, i: nat)
    requires i < |FREQUENCY_CONFIG|
    ensures |FrequencyData(BuildDataMap(deviceData))| == 10
    ensures FrequencyData(BuildDataMap(deviceData))[i].config == FREQUENCY_CONFIG[i]
    ensures FrequencyData(BuildDataMap(deviceData))[i].value ==
      match LastValue(deviceData, FREQUENCY_CONFIG[i].code)
      case Some(v) => if IsTruthy(v) then v else Num(0.0)
      case None => Num(0.0)
    ensures (forall t :: 0 <= t < |deviceData| ==> deviceData[t].code != FREQUENCY_CONFIG[i].code) ==>
      FrequencyData(BuildDataMap(deviceData))[i].value == Num(0.0)
  {
    LookupLast(deviceData, FREQUENCY_CONFIG[i].code);
    LastValueNone(deviceData, FREQUENCY_CONFIG[i].code);
  }

  /** The pump codes are distinct, so no two cards read the same record. */
  lemma FrequencyCodesDistinct()
    ensures forall i, j :: 0 <= i < j < |FREQUENCY_CONFIG| ==> FREQUENCY_CONFIG[i].code != FREQUENCY_CONFIG[j].code
  {
  }

  /** `PumpFreqCard`'s `isRunning`: a positive frequency. */
  predicate PumpRunning(value: real)
  {
    value > 0.0
  }

  /** `Math.min(value * 2, 100)`: the width of the bar, in percent. */
  function BarWidth(value: real): (w: real)
    ensures w <= 100.0
    ensures w == 100.0 <==> value >= 50.0
    ensures value < 50.0 ==> w == 2.0 * value
  {
    if value * 2.0 < 100.0 then value * 2.0 else 100.0
  }

  /** The bar never shrinks as the frequency rises, and a running pump has a visible bar. */
  lemma BarWidthMonotone(x: real, y: real)
    requires x <= y
    ensures BarWidth(x) <= BarWidth(y)
    ensures PumpRunning(y) ==> BarWidth(y) > 0.0
  {
  }

  /** The text of the card, `value.toFixed(0)`, for an integral frequency is its decimal text. */
  lemma PumpTextInteger(n: int)
    ensures ToFixed(n as real, 0) == IntText(n)
  {
    ToFixedInteger(n, 0);
  }

  /** What one `PumpFreqCard` shows: its caption, the running flag, the text of the value and the bar width. */
  datatype PumpCard = PumpCard(caption: string, running: bool, text: string, width: real)

  /**
   * `<PumpFreqCard label={item.short} value={item.value} />`. `None` stands
   * for a value that arrived as text: the card's `value.toFixed(0)` does not
   * exist on a string.
   */
  function FrequencyCard(e: FrequencyEntry): (c: Option<PumpCard>)
    ensures c.None? <==> e.value.Str?
    ensures c.Some? ==> c.value.caption == e.config.short
    ensures c.Some? ==> (c.value.running <==> e.value.x > 0.0)
    ensures c.Some? ==> c.value.width <= 100.0 && (c.value.width == 100.0 <==> e.value.x >= 50.0)
    ensures c.Some? && c.value.running ==> c.value.width > 0.0
    ensures c.Some? && IsInteger(e.value.x) ==> c.value.text == IntText(e.value.x.Floor)
  {
    match e.value
    case Str(_) => None
    case Num(x) =>
      if IsInteger(x) then
        PumpTextInteger(x.Floor);
        Some(PumpCard(e.config.short, PumpRunning(x), ToFixed(x, 0), BarWidth(x)))
      else
        Some(PumpCard(e.config.short, PumpRunning(x), ToFixed(x, 0), BarWidth(x)))
  }

  /**
   * A zero reading shows a stopped card: not running, text `0`, an empty bar.
   * With `FrequencyDataOfRecords`, this is the card of a pump with no record.
   */
  lemma ZeroFrequencyCard(e: FrequencyEntry)
    requires e.value == Num(0.0)
    ensures FrequencyCard(e) == Some(PumpCard(e.config.short, false, "0", 0.0))
  {
    PumpTextInteger(0);
  }

  // ---------------------------------------------------------------- heat-pump cards

  /** The statuses `HeatPumpCard` shows as running. */
  const RUNNING_STATUSES: seq<int> := [5, 6, 7, 16, 17, 25]

  /** The statuses `HeatPumpCard` shows as a warning. */
  const WARNING_STATUSES: seq<int> := [11, 18, 19]

  /** `list.includes(status)`: strict equality, so a string status is never in a list of numbers. */
  predicate Includes(list: seq<int>, status: Value)
  {
    status.Num? && IsInteger(status.x) && status.x.Floor in list
  }

  predicate IsRunning(status: Value)
  {
    Includes(RUNNING_STATUSES, status)
  }

  predicate IsWarning(status: Value)
  {
    Includes(WARNING_STATUSES, status)
  }

  /** The styling of a card: warning first, then running, else idle. */
  datatype CardTone = Warning | Running | Idle

  function Tone(status: Value): (t: CardTone)
    ensures t == Warning <==> IsWarning(status)
    ensures t == Running <==> IsRunning(status)
    ensures t == Idle <==> !IsWarning(status) && !IsRunning(status)
  {
    if IsWarning(status) then Warning else if IsRunning(status) then Running else Idle
  }

  /** Every running and every warning status has a label in the table. */
  lemma ClassifiedStatusesLabelled(status: Value)
    requires IsRunning(status) || IsWarning(status)
    ensures HeatPumpLabel(status.x).Some?
  {
  }

  /**
   * The key a string names when it indexes `HEAT_PUMP_STATUS_MASK`: the
   * object's keys are canonical decimal numerals, so only digits without a
   * leading zero match.
   */
  function KeyOfText(s: string): (k: Option<nat>)
    ensures k.Some? ==> NatText(k.value) == s
  {
    if |s| > 0 && AllDigits(s) && NatText(DigitsValue(s)) == s then Some(DigitsValue(s)) else None
  }

  /** Every canonical numeral names its number. */
  lemma KeyOfNatText(n: nat)
    ensures KeyOfText(NatText(n)) == Some(n)
  {
    NatTextRoundTrip(n);
  }

  /**
   * `HEAT_PUMP_STATUS_MASK[status] || `${status}``: the label of a known
   * status, otherwise the status as text. `None` stands for a non-integral
   * number, whose text this model does not produce.
   */
  function StatusText(status: Value): (r: Option<string>)
    ensures status.Num? && IsInteger(status.x) && status.x.Floor in HEAT_PUMP_STATUS_MASK ==>
      r == Some(HEAT_PUMP_STATUS_MASK[status.x.Floor])
    ensures status.Num? && IsInteger(status.x) && status.x.Floor !in HEAT_PUMP_STATUS_MASK ==>
      r == Some(IntText(status.x.Floor))
    ensures r.None? <==> status.Num? && !IsInteger(status.x)
  {
    match status
    case Num(x) =>
      (match HeatPumpLabel(x)
       case Some(text) => Some(text)
       case None => if IsInteger(x) then Some(IntText(x.Floor)) else None)
    case Str(s) =>
      var key := KeyOfText(s);
      if key.Some? && key.value in HEAT_PUMP_STATUS_MASK then Some(HEAT_PUMP_STATUS_MASK[key.value]) else Some(s)
  }

  /**
   * A status that arrives as decimal text reads the same as the number: the
   * label lookup goes by the text of the key. Only the classification
   * differs, since `includes` compares strictly.
   */
  lemma TextStatusReadsAsNumber(n: nat)
    ensures StatusText(Str(NatText(n))) == StatusText(Num(n as real))
    ensures Tone(Str(NatText(n))) == Idle
  {
    KeyOfNatText(n);
    assert (n as real).Floor == n;
  }

  const FIRST_STATUS: string := "heatPumpStatusFirst"
  const SECOND_STATUS: string := "heatPumpStatusSecond"

  /** One `HeatPumpCard`: number, status, its text and tone, and the four temperatures it reads. */
  datatype HeatPumpCard = HeatPumpCard(
    index: nat, status: Value, text: Option<string>, tone: CardTone,
    condensationSupply: Option<Value>, condensationReturn: Option<Value>,
    evaporationSupply: Option<Value>, evaporationReturn: Option<Value>)

  /** A card: the status read with `|| 0`, the temperatures read as they are (possibly missing). */
  function Card(m: DataMap, index: nat, statusCode: string, temperatureCodes: seq<string>): (c: HeatPumpCard)
    requires |temperatureCodes| == 4
    ensures c.status == Lookup(m, statusCode)
    ensures c.text == StatusText(c.status) && c.tone == Tone(c.status)
  {
    var status := Lookup(m, statusCode);
    HeatPumpCard(index, status, StatusText(status), Tone(status),
      Get(m, temperatureCodes[0]), Get(m, temperatureCodes[1]),
      Get(m, temperatureCodes[2]), Get(m, temperatureCodes[3]))
  }

  /** The two cards: unit 1 reads the `...First` temperatures, unit 2 the `...Third` ones (there is no `...Second` read). */
  function HeatPumpCards(m: DataMap): (cards: seq<HeatPumpCard>)
    ensures |cards| == 2 && cards[0].index == 1 && cards[1].index == 2
    ensures cards[0].status == Lookup(m, FIRST_STATUS) && cards[1].status == Lookup(m, SECOND_STATUS)
    ensures cards[0].condensationSupply == Get(m, "heatPumpCondensationSupplyTempFirst")
    ensures cards[0].condensationReturn == Get(m, "heatPumpCondensationReturnTempFirst")
    ensures cards[0].evaporationSupply == Get(m, "heatPumpEvaporationSupplyTempFirst")
    ensures cards[0].evaporationReturn == Get(m, "heatPumpEvaporationReturnTempFirst")
    ensures cards[1].condensationSupply == Get(m, "heatPumpCondensationSupplyTempThird")
    ensures cards[1].condensationReturn == Get(m, "heatPumpCondensationReturnTempThird")
    ensures cards[1].evaporationSupply == Get(m, "heatPumpEvaporationSupplyTempThird")
    ensures cards[1].evaporationReturn == Get(m, "heatPumpEvaporationReturnTempThird")
  {
    [Card(m, 1, FIRST_STATUS, ["heatPumpCondensationSupplyTempFirst", "heatPumpCondensationReturnTempFirst",
                               "heatPumpEvaporationSupplyTempFirst", "heatPumpEvaporationReturnTempFirst"]),
     Card(m, 2, SECOND_STATUS, ["heatPumpCondensationSupplyTempThird", "heatPumpCondensationReturnTempThird",
                                "heatPumpEvaporationSupplyTempThird", "heatPumpEvaporationReturnTempThird"])]
  }

  /** A unit with no status record (or a falsy one) shows `机组待机` and neither runs nor warns. */
  lemma MissingStatusIsStandby(deviceData: seq<DeviceProperty>, k: nat)
    requires k < 2
    requires var last := LastValue(deviceData, if k == 0 then FIRST_STATUS else SECOND_STATUS);
      last.None? || !IsTruthy(last.value)
    ensures HeatPumpCards(BuildDataMap(deviceData))[k].text == Some("机组待机")
    ensures HeatPumpCards(BuildDataMap(deviceData))[k].tone == Idle
  {
    var code := if k == 0 then FIRST_STATUS else SECOND_STATUS;
    LookupLast(deviceData, code);
    ZeroStatusIsStandby();
  }

  /** Status 0 is labelled `机组待机` and is neither running nor a warning. */
  lemma ZeroStatusIsStandby()
    ensures StatusText(Num(0.0)) == Some("机组待机")
    ensures Tone(Num(0.0)) == Idle
  {
    assert HeatPumpLabel(0.0) == Some("机组待机");
  }

  /**
   * `value?.toFixed(1) || '-'`: a dash for a missing temperature, otherwise
   * the number to one place. `None` stands for a string value, on which
   * `toFixed` does not exist.
   */
  function TemperatureText(v: Option<Value>): (r: Option<string>)
    ensures v.None? ==> r == Some("-")
    ensures r.None? <==> v.Some? && v.value.Str?
  {
    match v
    case None => Some("-")
    case Some(Num(x)) => Some(ToFixed(x, 1))
    case Some(Str(_)) => None
  }

  /** A recorded temperature is never shown as a dash, not even 0, which shows as `0.0`. */
  lemma RecordedTemperatureShown(x: real)
    ensures TemperatureText(Some(Num(x))).value != "-"
    ensures TemperatureText(Some(Num(0.0))) == Some("0.0")
  {
    ToFixedInteger(0, 1);
    assert DigitChar(0) == '0';
    assert IntText(0) + "." + Zeros(1) == "0.0";
    assert ToFixed(0.0, 1) == "0.0";
    assert TemperatureText(Some(Num(0.0))) == Some(ToFixed(0.0, 1));
  }
}
