/**
 * The monitor panel: read-only records are sorted into the `DATA_CATEGORIES`
 * panels, each record going to the first category whose filter accepts its
 * code, with a shared `used` set of codes; what no category takes is shown
 * under `other`. Values are formatted and coloured per code.
 */
module MonitorPanel {
  import opened Wrappers
  import opened JsOps
  import opened Assoc
  import opened DeviceTypes
  import opened Constants
  import opened Arrays
  import Grouping

  // ---------------------------------------------------------------- categories

  /** One panel: its key, its title and icon, and the filter on codes that decides what it shows. */
  datatype Category = Category(key: string, title: string, icon: string, filter: string -> bool)

  // The filters of `DATA_CATEGORIES`, one per category.

  predicate HeatPumpStatusFilter(code: string) {
    Contains(code, "heatPumpStatus")
  }

  predicate HeatPumpTempFilter(code: string) {
    (Contains(code, "heatPump") && Contains(code, "Temp")) || Contains(code, "Condensation") || Contains(code, "Evaporation")
  }

  predicate SupplyTempFilter(code: string) {
    (Contains(code, "SupplyTemp") || Contains(code, "ReturnTemp")) && !Contains(code, "heatPump")
  }

  predicate PressureFilter(code: string) {
    Contains(code, "Pressure")
  }

  predicate FrequencyFilter(code: string) {
    Contains(code, "Frequency") || Contains(code, "frequency")
  }

  predicate PowerFilter(code: string) {
    Contains(code, "ElectricityMeter")
  }

  predicate HeatMeterFilter(code: string) {
    Contains(code, "heatMeter")
  }

  predicate EnvironmentFilter(code: string) {
    code == "outsideTemp" || code == "waterTankVolume" || code == "systemICOP"
  }

  /** `DATA_CATEGORIES`, in priority order. */
  const DATA_CATEGORIES: seq<Category> := [
    Category("heatPumpStatus", "🔥 热泵状态", "🔥", HeatPumpStatusFilter),
    Category("heatPumpTemp", "🌡️ 热泵温度", "🌡️", HeatPumpTempFilter),
    Category("supplyTemp", "💧 供回水温度", "💧", SupplyTempFilter),
    Category("pressure", "📊 压力监测", "📊", PressureFilter),
    Category("frequency", "⚡ 泵频率", "⚡", FrequencyFilter),
    Category("power", "🔌 电能监测", "🔌", PowerFilter),
    Category("heatMeter", "📈 热量表", "📈", HeatMeterFilter),
    Category("environment", "🌍 环境参数", "🌍", EnvironmentFilter)
  ]

  /** Key of the panel for records no category takes. */
  const OTHER: string := "other"

  /** Category keys are distinct and none of them is `other`. */
  predicate DistinctCategoryKeys(categories: seq<Category>)
  {
    && (forall i, j :: 0 <= i < j < |categories| ==> categories[i].key != categories[j].key)
    && (forall i :: 0 <= i < |categories| ==> categories[i].key != OTHER)
  }

  lemma DataCategoriesDistinct()
    ensures |DATA_CATEGORIES| == 8
    ensures DistinctCategoryKeys(DATA_CATEGORIES)
  {
  }

  /** `item.access_mode === 'R'` */
  predicate IsReadOnly(item: DeviceProperty)
  {
    item.accessMode == R
  }

  /** `deviceData.filter(item => item.access_mode === 'R')` */
  function ReadOnly(deviceData: seq<DeviceProperty>): (r: seq<DeviceProperty>)
    ensures forall x :: x in r <==> x in deviceData && x.accessMode == R
  {
    Filter(deviceData, IsReadOnly)
  }

  /** The panel shows its "no data" message exactly when no record is read-only. */
  function ShowsNoData(deviceData: seq<DeviceProperty>): (r: bool)
    ensures r <==> forall i :: 0 <= i < |deviceData| ==> deviceData[i].accessMode != R
  {
    var readOnly := ReadOnly(deviceData);
    assert forall i :: 0 <= i < |deviceData| && deviceData[i].accessMode == R ==> deviceData[i] in readOnly;
    assert |readOnly| > 0 ==> readOnly[0] in readOnly;
    |readOnly| == 0
  }

  /** The index of the first category whose filter accepts `code`, if any. */
  function FirstMatch(categories: seq<Category>, code: string): (r: Option<nat>)
    ensures r.Some? ==> r.value < |categories|
  {
    if categories == [] then None
    else if categories[0].filter(code) then Some(0)
    else
      match FirstMatch(categories[1..], code)
      case Some(k) => Some(k + 1)
      case None => None
  }

  /** The category found accepts the code, and no category before it does. */
  lemma {:induction false} FirstMatchAccepts(categories: seq<Category>, code: string)
    requires FirstMatch(categories, code).Some?
    ensures categories[FirstMatch(categories, code).value].filter(code)
    ensures forall m :: 0 <= m < FirstMatch(categories, code).value ==> !categories[m].filter(code)
  {
    if !categories[0].filter(code) {
      var rest := categories[1..];
      FirstMatchAccepts(rest, code);
      assert forall m :: 1 <= m < |categories| ==> categories[m] == rest[m - 1];
    }
  }

  /** A category that accepts the code is the one found or comes after it. */
  lemma {:induction false} FirstMatchAtMost(categories: seq<Category>, code: string, m: nat)
    requires m < |categories| && categories[m].filter(code)
    ensures FirstMatch(categories, code).Some? && FirstMatch(categories, code).value <= m
  {
    if !categories[0].filter(code) {
      var rest := categories[1..];
      assert rest[m - 1] == categories[m];
      FirstMatchAtMost(rest, code, m - 1);
    }
  }

  /** Nothing is found exactly when no category accepts the code. */
  lemma FirstMatchNone(categories: seq<Category>, code: string)
    ensures FirstMatch(categories, code).None? <==> forall m :: 0 <= m < |categories| ==> !categories[m].filter(code)
  {
    if FirstMatch(categories, code).Some? {
      FirstMatchAccepts(categories, code);
    }
    forall m | 0 <= m < |categories| && categories[m].filter(code)
      ensures FirstMatch(categories, code).Some?
    {
      FirstMatchAtMost(categories, code, m);
    }
  }

  /** `code` goes to a category before index `k`. */
  predicate PlacedBefore(categories: seq<Category>, code: string, k: nat)
  {
    FirstMatch(categories, code).Some? && FirstMatch(categories, code).value < k
  }

  /** The codes of the records. */
  function Codes(data: seq<DeviceProperty>): set<string>
  {
    if data == [] then {} else Codes(data[..|data| - 1]) + {data[|data| - 1].code}
  }

  lemma {:induction false} CodesOf(data: seq<DeviceProperty>, t: nat)
    requires t < |data|
    ensures data[t].code in Codes(data)
  {
    if t < |data| - 1 {
      CodesOf(data[..|data| - 1], t);
    }
  }

  lemma {:induction false} NotInCodes(data: seq<DeviceProperty>, code: string)
    requires forall t :: 0 <= t < |data| ==> data[t].code != code
    ensures code !in Codes(data)
  {
    if data != [] {
      NotInCodes(data[..|data| - 1], code);
    }
  }

  /** The codes of `data` that go to a category before index `k`. */
  function Used(data: seq<DeviceProperty>, categories: seq<Category>, k: nat): set<string>
  {
    if data == [] then {}
    else
      var x := data[|data| - 1];
      Used(data[..|data| - 1], categories, k) + (if PlacedBefore(categories, x.code, k) then {x.code} else {})
  }

  /** A code is used exactly when some record has it and it goes to a category before `k`. */
  lemma {:induction false} UsedMember(data: seq<DeviceProperty>, categories: seq<Category>, k: nat, code: string)
    ensures code in Used(data, categories, k) <==> code in Codes(data) && PlacedBefore(categories, code, k)
  {
    if data != [] {
      UsedMember(data[..|data| - 1], categories, k, code);
    }
  }

  /**
   * The records that category `k` shows: those whose first accepting
   * category is `k`, each the first record with its code, in input order.
   */
  function Placed(data: seq<DeviceProperty>, categories: seq<Category>, k: nat): (r: seq<DeviceProperty>)
    ensures forall x :: x in r ==> x in data && FirstMatch(categories, x.code) == Some(k)
  {
    if data == [] then []
    else
      var pre, x := data[..|data| - 1], data[|data| - 1];
      assert data == pre + [x];
      Placed(pre, categories, k) +
        (if FirstMatch(categories, x.code) == Some(k) && x.code !in Codes(pre) then [x] else [])
  }

  /** The records no category accepts, in input order. */
  function Unplaced(data: seq<DeviceProperty>, categories: seq<Category>): (r: seq<DeviceProperty>)
  {
    Filter(data, (x: DeviceProperty) => FirstMatch(categories, x.code).None?)
  }

  /** The keys of the categories, in order. */
  function CategoryKeys(categories: seq<Category>): (keys: seq<string>)
    ensures |keys| == |categories|
  {
    seq(|categories|, i requires 0 <= i < |categories| => categories[i].key)
  }

  /** What each category shows, in order. */
  function Buckets(data: seq<DeviceProperty>, categories: seq<Category>): (buckets: seq<seq<DeviceProperty>>)
    ensures |buckets| == |categories|
  {
    seq(|categories|, k requires 0 <= k < |categories| => Placed(data, categories, k))
  }

  /** The finished `categorizedData`: every category's records, then `other`. */
  function CategorizedData(data: seq<DeviceProperty>, categories: seq<Category>): seq<(string, seq<DeviceProperty>)>
  {
    Put(Table(CategoryKeys(categories), Buckets(data, categories)), OTHER, Unplaced(data, categories))
  }

  // ---------------------------------------------------------------- the categorisation loop

  /** A code placed before category `k` is also placed before `k + 1`. */
  lemma {:induction false} UsedGrows(data: seq<DeviceProperty>, categories: seq<Category>, k: nat)
    ensures Used(data, categories, k) <= Used(data, categories, k + 1)
  {
    if data != [] {
      UsedGrows(data[..|data| - 1], categories, k);
    }
  }

  lemma PlacedSnoc(data: seq<DeviceProperty>, x: DeviceProperty, categories: seq<Category>, k: nat)
    ensures Placed(data + [x], categories, k) ==
      Placed(data, categories, k) + (if FirstMatch(categories, x.code) == Some(k) && x.code !in Codes(data) then [x] else [])
  {
    assert (data + [x])[..|data|] == data;
  }

  lemma PlacedLengthSnoc(data: seq<DeviceProperty>, x: DeviceProperty, categories: seq<Category>, k: nat)
    ensures |Placed(data + [x], categories, k)| ==
      |Placed(data, categories, k)| + (if FirstMatch(categories, x.code) == Some(k) && x.code !in Codes(data) then 1 else 0)
  {
    PlacedSnoc(data, x, categories, k);
  }

  lemma UsedSnoc(data: seq<DeviceProperty>, x: DeviceProperty, categories: seq<Category>, k: nat)
    ensures Codes(data + [x]) == Codes(data) + {x.code}
    ensures Used(data + [x], categories, k) == Used(data, categories, k) + (if PlacedBefore(categories, x.code, k) then {x.code} else {})
  {
    assert (data + [x])[..|data|] == data;
  }

  /** One record of the inner loop, in each of its three cases. */
  lemma CategorizeStep(d: seq<DeviceProperty>, categories: seq<Category>, k: nat, j: nat)
    requires k < |categories| && j < |d|
    ensures var used := Used(d, categories, k) + Used(d[..j], categories, k + 1);
      && (d[j].code in used ==>
            Placed(d[..j + 1], categories, k) == Placed(d[..j], categories, k) &&
            Used(d, categories, k) + Used(d[..j + 1], categories, k + 1) == used)
      && (d[j].code !in used && categories[k].filter(d[j].code) ==>
            Placed(d[..j + 1], categories, k) == Placed(d[..j], categories, k) + [d[j]] &&
            Used(d, categories, k) + Used(d[..j + 1], categories, k + 1) == used + {d[j].code})
      && (d[j].code !in used && !categories[k].filter(d[j].code) ==>
            Placed(d[..j + 1], categories, k) == Placed(d[..j], categories, k) &&
            Used(d, categories, k) + Used(d[..j + 1], categories, k + 1) == used)
  {
    var pre, x := d[..j], d[j];
    var c := x.code;
    assert d[..j + 1] == pre + [x];
    PlacedSnoc(pre, x, categories, k);
    UsedSnoc(pre, x, categories, k + 1);
    CodesOf(d, j);
    UsedMember(d, categories, k, c);
    UsedMember(pre, categories, k + 1, c);
    if categories[k].filter(c) {
      FirstMatchAtMost(categories, c, k);
    }
    if FirstMatch(categories, c) == Some(k) {
      FirstMatchAccepts(categories, c);
    }
  }

  /** Before the first category nothing is used. */
  lemma {:induction false} UsedNone(data: seq<DeviceProperty>, categories: seq<Category>)
    ensures Used(data, categories, 0) == {}
  {
    if data != [] {
      UsedNone(data[..|data| - 1], categories);
    }
  }

  /**
   * `readOnlyData.filter(item => ...)` for category `k`: a record is taken
   * when its code is not used yet and the category accepts it, and taking it
   * adds the code to `used`.
   */
  method TakeCategory(readOnlyData: seq<DeviceProperty>, categories: seq<Category>, k: nat, usedBefore: set<string>)
    returns (bucket: seq<DeviceProperty>, used: set<string>)
    requires k < |categories| && usedBefore == Used(readOnlyData, categories, k)
    ensures bucket == Placed(readOnlyData, categories, k)
    ensures used == Used(readOnlyData, categories, k + 1)
  {
    var category := categories[k];
    bucket, used := [], usedBefore;
    var j := 0;
    while j < |readOnlyData|
      invariant 0 <= j <= |readOnlyData|
      invariant bucket == Placed(readOnlyData[..j], categories, k)
      invariant used == Used(readOnlyData, categories, k) + Used(readOnlyData[..j], categories, k + 1)
    {
      var item := readOnlyData[j];
      CategorizeStep(readOnlyData, categories, k, j);
      if item.code in used {
      } else if category.filter(item.code) {
        used := used + {item.code};
        bucket := bucket + [item];
      }
      j := j + 1;
    }
    assert readOnlyData[..j] == readOnlyData;
    UsedGrows(readOnlyData, categories, k);
  }

  /** `readOnlyData.filter(item => !used.has(item.code))` */
  function Unused(data: seq<DeviceProperty>, used: set<string>): seq<DeviceProperty>
  {
    Filter(data, (x: DeviceProperty) => x.code !in used)
  }

  /** Once every category has run, the records with unused codes are those no category accepts. */
  lemma UnusedIsUnplaced(data: seq<DeviceProperty>, categories: seq<Category>)
    ensures Unused(data, Used(data, categories, |categories|)) == Unplaced(data, categories)
  {
    var used := Used(data, categories, |categories|);
    forall i | 0 <= i < |data|
      ensures (data[i].code !in used) == FirstMatch(categories, data[i].code).None?
    {
      CodesOf(data, i);
      UsedMember(data, categories, |categories|, data[i].code);
    }
    FilterCongruent(data, (x: DeviceProperty) => x.code !in used,
                    (x: DeviceProperty) => FirstMatch(categories, x.code).None?);
  }

  /**
   * `categorizedData`: each category in turn takes its records from the
   * read-only data; `other` gets the records whose code was never used.
   */
  method Categorize(readOnlyData: seq<DeviceProperty>, categories: seq<Category>)
    returns (result: seq<(string, seq<DeviceProperty>)>)
    ensures result == CategorizedData(readOnlyData, categories)
  {
    result := [];
    var used: set<string> := {};
    UsedNone(readOnlyData, categories);
    ghost var keys, buckets := CategoryKeys(categories), Buckets(readOnlyData, categories);
    var k := 0;
    while k < |categories|
      invariant 0 <= k <= |categories|
      invariant result == Table(keys[..k], buckets[..k])
      invariant used == Used(readOnlyData, categories, k)
    {
      var bucket;
      bucket, used := TakeCategory(readOnlyData, categories, k, used);
      assert keys[..k + 1][..k] == keys[..k] && buckets[..k + 1][..k] == buckets[..k];
      result := Put(result, categories[k].key, bucket);
      k := k + 1;
    }
    assert keys[..k] == keys && buckets[..k] == buckets;
    UnusedIsUnplaced(readOnlyData, categories);
    result := Put(result, OTHER, Unused(readOnlyData, used));
  }

  // ---------------------------------------------------------------- what the categorisation promises

  /**
   * With distinct category keys, `categorizedData[category.key]` is what the
   * category shows and `categorizedData['other']` the unaccepted records.
   */
  lemma CategorizedDataGet(data: seq<DeviceProperty>, categories: seq<Category>, k: nat)
    requires DistinctCategoryKeys(categories) && k < |categories|
    ensures Get(CategorizedData(data, categories), categories[k].key) == Some(Placed(data, categories, k))
    ensures Get(CategorizedData(data, categories), OTHER) == Some(Unplaced(data, categories))
  {
    var keys, buckets := CategoryKeys(categories), Buckets(data, categories);
    TableGet(keys, buckets, k);
    assert buckets[k] == Placed(data, categories, k);
    assert categories[k].key != OTHER;
  }

  /** No two records share a code. */
  predicate DistinctCodes(data: seq<DeviceProperty>)
  {
    forall i, j :: 0 <= i < j < |data| ==> data[i].code != data[j].code
  }

  /**
   * With distinct codes category `k` shows exactly the records whose first
   * accepting category is `k` (and `other` those no category accepts), so
   * every record is shown in exactly one panel.
   */
  lemma {:induction false} PlacedDistinct(data: seq<DeviceProperty>, categories: seq<Category>, k: nat)
    requires DistinctCodes(data)
    ensures forall x :: x in Placed(data, categories, k) <==> x in data && FirstMatch(categories, x.code) == Some(k)
  {
    if data != [] {
      var pre, x := data[..|data| - 1], data[|data| - 1];
      assert data == pre + [x];
      PlacedDistinct(pre, categories, k);
      NotInCodes(pre, x.code);
    }
  }

  /** Number of records shown in the first `n` category panels. */
  function PlacedTotal(data: seq<DeviceProperty>, categories: seq<Category>, n: nat): nat
  {
    if n == 0 then 0 else PlacedTotal(data, categories, n - 1) + |Placed(data, categories, n - 1)|
  }

  lemma {:induction false} PlacedTotalEmpty(categories: seq<Category>, n: nat)
    ensures PlacedTotal([], categories, n) == 0
  {
    if n > 0 {
      PlacedTotalEmpty(categories, n - 1);
    }
  }

  lemma {:induction false} PlacedTotalSnoc(data: seq<DeviceProperty>, x: DeviceProperty, categories: seq<Category>, n: nat)
    ensures PlacedTotal(data + [x], categories, n) ==
      PlacedTotal(data, categories, n) + (if PlacedBefore(categories, x.code, n) && x.code !in Codes(data) then 1 else 0)
  {
    if n > 0 {
      PlacedTotalSnoc(data, x, categories, n - 1);
      PlacedLengthSnoc(data, x, categories, n - 1);
    }
  }

  /** With distinct codes the panels, `other` included, show every read-only record once: the counts add up. */
  lemma {:induction false} PartitionCount(data: seq<DeviceProperty>, categories: seq<Category>)
    requires DistinctCodes(data)
    ensures PlacedTotal(data, categories, |categories|) + |Unplaced(data, categories)| == |data|
  {
    if data == [] {
      PlacedTotalEmpty(categories, |categories|);
    } else {
      var pre, x := data[..|data| - 1], data[|data| - 1];
      assert data == pre + [x];
      PartitionCount(pre, categories);
      PlacedTotalSnoc(pre, x, categories, |categories|);
      assert forall t :: 0 <= t < |pre| ==> pre[t].code != x.code by {
        forall t | 0 <= t < |pre| ensures pre[t].code != x.code {
          assert pre[t] == data[t];
        }
      }
      NotInCodes(pre, x.code);
      assert PlacedBefore(categories, x.code, |categories|) <==> FirstMatch(categories, x.code).Some?;
      assert Unplaced(data, categories) ==
        Unplaced(pre, categories) + (if FirstMatch(categories, x.code).None? then [x] else []);
      assert |Unplaced(data, categories)| == |Unplaced(pre, categories)| + (if FirstMatch(categories, x.code).None? then 1 else 0);
      assert PlacedTotal(data, categories, |categories|) ==
        PlacedTotal(pre, categories, |categories|) + (if FirstMatch(categories, x.code).Some? then 1 else 0);
    }
  }

  /** A later record whose code has already been placed in a category shows up in no panel at all. */
  lemma LaterDuplicateDropped(data: seq<DeviceProperty>, x: DeviceProperty, categories: seq<Category>, k: nat)
    requires x.code in Codes(data) && FirstMatch(categories, x.code).Some?
    ensures Placed(data + [x], categories, k) == Placed(data, categories, k)
    ensures Unplaced(data + [x], categories) == Unplaced(data, categories)
  {
    PlacedSnoc(data, x, categories, k);
    assert (data + [x])[..|data|] == data;
  }

  // ---------------------------------------------------------------- the configured categories

  /** A heat-pump status code always goes to the first panel. */
  lemma StatusCodesFirst(code: string)
    requires Contains(code, Grouping.HEAT_PUMP_STATUS)
    ensures FirstMatch(DATA_CATEGORIES, code) == Some(0)
  {
  }

  /**
   * A heat-pump temperature goes to the heat-pump panel: the supply/return
   * panel rejects codes containing `heatPump`, even a `...SupplyTemp...` one.
   */
  lemma HeatPumpTemperaturesSecond(code: string)
    requires Contains(code, "heatPump") && Contains(code, "Temp") && !Contains(code, Grouping.HEAT_PUMP_STATUS)
    ensures FirstMatch(DATA_CATEGORIES, code) == Some(1)
    ensures !DATA_CATEGORIES[2].filter(code)
  {
  }

  // ---------------------------------------------------------------- formatting and colours

  const STATUS_CODE_PREFIX: string := "状态码: "

  /**
   * `formatValue`: a numeric heat-pump status gets its table label, or
   * `状态码: N`; another number is written in decimal when it is an integer
   * and with `toFixed(2)` otherwise, followed by the unit when there is one
   * other than `-`; a string is shown as it is. `None` stands for a
   * non-integral status, which would need `String(x)` of a fraction.
   */
  function FormatValue(value: Value, unit: string, code: string): (r: Option<string>)
    ensures value.Str? ==> r == Some(value.s)
    ensures r.None? <==> value.Num? && Contains(code, Grouping.HEAT_PUMP_STATUS) && !IsInteger(value.x)
  {
    match value
    case Str(s) => Some(s)
    case Num(x) =>
      if Contains(code, Grouping.HEAT_PUMP_STATUS) then
        (match HeatPumpLabel(x)
         case Some(text) => Some(text)
         case None => if IsInteger(x) then Some(STATUS_CODE_PREFIX + IntText(x.Floor)) else None)
      else
        var formatted := if IsInteger(x) then IntText(x.Floor) else ToFixed(x, 2);
        Some(if unit != "" && unit != "-" then formatted + " " + unit else formatted)
  }

  /**
   * On a status reading the panel and `processHeatPumpStatus` agree for known
   * codes; for an unknown code the panel shows `状态码: N` where the decoder
   * writes `未知状态`, and the digits after the prefix read back as `N`.
   */
  lemma FormatStatusVersusProcessing(p: DeviceProperty)
    requires Grouping.IsHeatPumpStatusReading(p)
    ensures p.value.x.Floor in HEAT_PUMP_STATUS_MASK ==>
      FormatValue(p.value, p.unit, p.code) == Some(Grouping.ProcessHeatPumpStatus(p).value.s)
    ensures p.value.x.Floor !in HEAT_PUMP_STATUS_MASK ==>
      && FormatValue(p.value, p.unit, p.code) == Some(STATUS_CODE_PREFIX + IntText(p.value.x.Floor))
      && Grouping.ProcessHeatPumpStatus(p).value.s == Grouping.UNKNOWN_STATUS
    ensures p.value.x.Floor !in HEAT_PUMP_STATUS_MASK && p.value.x >= 0.0 ==>
      TextToNumber(FormatValue(p.value, p.unit, p.code).value[|STATUS_CODE_PREFIX|..]) == p.value.x
  {
    if p.value.x.Floor !in HEAT_PUMP_STATUS_MASK && p.value.x >= 0.0 {
      var text := FormatValue(p.value, p.unit, p.code).value;
      assert text[|STATUS_CODE_PREFIX|..] == IntText(p.value.x.Floor);
      TextToNumberOfText(p.value.x.Floor);
    }
  }

  /** An integer reading without a unit reads back from its text. */
  lemma FormatIntegerRoundTrip(n: nat, unit: string, code: string)
    requires !Contains(code, Grouping.HEAT_PUMP_STATUS) && (unit == "" || unit == "-")
    ensures FormatValue(Num(n as real), unit, code).Some?
    ensures TextToNumber(FormatValue(Num(n as real), unit, code).value) == n as real
  {
    assert (n as real).Floor == n;
    TextToNumberOfText(n);
  }

  const GREY: string := "#e2e8f0"
  const RED: string := "#f87171"
  const AMBER: string := "#fbbf24"
  const BLUE: string := "#60a5fa"
  const GREEN: string := "#4ade80"
  const SLATE: string := "#94a3b8"
  const CYAN: string := "#22d3ee"

  /** `getValueColor`: non-numbers grey, then temperature, frequency and pressure bands, else cyan. */
  function ValueColor(value: Value, code: string): string
  {
    match value
    case Str(_) => GREY
    case Num(x) =>
      if Contains(code, "Temp") then
        (if x > 45.0 then RED else if x > 35.0 then AMBER else if x < 10.0 then BLUE else GREEN)
      else if Contains(code, "Frequency") then
        (if x == 0.0 then SLATE else if x >= 50.0 then GREEN else AMBER)
      else if Contains(code, "Pressure") then
        (if x > 1000.0 then RED else GREEN)
      else CYAN
  }

  /** Temperature bands: red above 45, amber in (35, 45], blue below 10, green in [10, 35]. */
  lemma TemperatureColors(x: real, code: string)
    requires Contains(code, "Temp")
    ensures ValueColor(Num(x), code) == RED <==> x > 45.0
    ensures ValueColor(Num(x), code) == AMBER <==> 35.0 < x <= 45.0
    ensures ValueColor(Num(x), code) == BLUE <==> x < 10.0
    ensures ValueColor(Num(x), code) == GREEN <==> 10.0 <= x <= 35.0
  {
  }

  /** Rank of a temperature colour, coldest first. */
  function TemperatureRank(color: string): nat
  {
    if color == BLUE then 0 else if color == GREEN then 1 else if color == AMBER then 2 else 3
  }

  /** A warmer reading never gets a colder colour. */
  lemma TemperatureMonotone(x: real, y: real, code: string)
    requires Contains(code, "Temp") && x <= y
    ensures TemperatureRank(ValueColor(Num(x), code)) <= TemperatureRank(ValueColor(Num(y), code))
  {
  }

  /** Frequency bands (for codes without `Temp`): slate when stopped, green from 50, amber otherwise. */
  lemma FrequencyColors(x: real, code: string)
    requires !Contains(code, "Temp") && Contains(code, "Frequency")
    ensures ValueColor(Num(x), code) == SLATE <==> x == 0.0
    ensures ValueColor(Num(x), code) == GREEN <==> x >= 50.0
    ensures ValueColor(Num(x), code) == AMBER <==> x != 0.0 && x < 50.0
  {
  }

  /** Pressure (for codes without `Temp` or `Frequency`): red above 1000, green otherwise. */
  lemma PressureColors(x: real, code: string)
    requires !Contains(code, "Temp") && !Contains(code, "Frequency") && Contains(code, "Pressure")
    ensures ValueColor(Num(x), code) == RED <==> x > 1000.0
    ensures ValueColor(Num(x), code) == GREEN <==> x <= 1000.0
  {
  }
}
