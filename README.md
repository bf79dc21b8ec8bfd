# Heat-pump plant status decoding and monitoring classifiers

This project is a Dafny model of the data layer of a smart-energy dashboard.
The dashboard polls one heat-pump plant and receives a flat list of device
property records. Each record has a code, a name, a numeric or text value, a
unit and an access mode (`R`, `RW` or `W`). The model covers:

- **The status decoder** (`switchCodeUtil.ts`). Heat-pump status integers are
  relabelled from a table. Records are grouped by access mode and by the first
  configured code prefix (`low`, `high`, `well`, `heatPump`, else `other`).
  The two 16-bit status words are decoded flag by flag into remote, warning
  and run labels. The switch control word is decoded into on/off labels; the
  water pump reads with inverted polarity. A switch is toggled with XOR.
- **The static tables** (`constants.ts`): the prefix rules, the nine switch
  bits, the heat-pump status labels and the 16 + 14 status flags.
- **The read-only classifiers of the monitoring components.**
  - The panel partitions the read-only records into categories: each record
    goes to the first category that accepts it, and a code that was already
    placed is not placed again.
  - The compact monitor uses six independent filter groups, which may overlap.
  - Both monitors format values and colour them by threshold.
  - The status list builds a code → value map and derives the heat-pump
    cards (status text, running or warning styling) and the pump frequency
    cards (running flag, bar width).
  - The pressure chart and the energy-meter chart look up their configured
    codes and colour each value by band. The energy-meter chart also totals
    the meter readings.

Module layout:

| file | what it holds |
|---|---|
| `wrappers.dfy` | `Option` |
| `js_ops.dfy` | the JavaScript operators the code relies on: `includes`, `startsWith`, `>>> 0`, `&`, `^`, `Number.isInteger`, integer-to-text and `toFixed` |
| `device_types.dfy` | the record shapes, truthiness and number coercion |
| `assoc.dfy` | JavaScript objects as insertion-ordered association lists |
| `arrays.dfy` | `filter` and a numeric `reduce` sum |
| `constants.dfy` | the configuration tables and their shape |
| `grouping.dfy` | `processHeatPumpStatus`, `groupDeviceData` and the polling hook's selectors |
| `status_words.dfy` | `processStatusItems` and `getDeviceStatus` |
| `switches.dfy` | `getSwitchList`, `isSwitchOn` and `toggleSwitch` |
| `data_map.dfy` | the `new Map(...)` of codes to values and the `get(code) \|\| 0` lookup |
| `monitor_panel.dfy` | the monitoring panel: categories, first-match partition, `formatValue`, `getValueColor` |
| `monitor_compact.dfy` | the compact monitor: filter groups, `formatValue`, `getStatusColor` |
| `status_list.dfy` | the status list: frequency cards and heat-pump cards |
| `pressure_chart.dfy` | the pressure chart: `getPressureColor` and the chart rows |
| `energy_meter_chart.dfy` | the energy-meter chart: `getColor`, the chart rows and `totalPower` |

Modelling choices:

- Numbers are `real`, so there is no NaN, no infinity, no `-0` and no binary
  rounding.
- A record value is `Num(x)` or `Str(s)`. Where the code coerces a value with
  `value as number` and then applies `>>>`, `&` or arithmetic, a string of
  decimal digits reads as its number and any other string reads as 0.
  JavaScript would give NaN for such a string, and the bitwise operators read
  NaN as 0.
- `groupDeviceData` and the panel's `categorizedData` mutate their
  accumulators in place in the source. They are therefore methods with loops,
  each proved equal to a specification function about which the properties
  are proved.

A `heatPumpStatusFirst` record starts with the `heatPump` prefix, so it falls
in the `heatPump` group.

## Model

| member | source | states |
|---|---|---|
| Constants.HeatPumpLabel | src/utils/constants.ts:40-55 | a number has a label exactly when it is an integer key of the status table; the label is the table entry |
| Constants.HeatPumpLabelsNonEmpty | src/utils/constants.ts:40-55 | the status table has exactly the keys 0, 4-9, 11, 16-19, 24, 25, and no label is empty, so a `\|\|` fallback fires only for a missing key |
| Constants.DeviceRulePrefixes | src/utils/constants.ts:19-24 | four rules with prefixes low, high, well, heatPump in that order; no prefix starts another |
| Constants.AtMostOneRuleMatches | src/utils/constants.ts:19-24 | any code starts with at most one rule's prefix |
| Constants.SwitchMaskShape | src/utils/constants.ts:27-37 | nine switches with masks 1<<0 … 1<<8 in order, distinct codes, and the water pump is exactly the bit-8 entry |
| Constants.StatusMaskShape | src/utils/constants.ts:58-243 | 16 first-word flags on bits 0-15 and 14 second-word flags on bits 0-13, every mask positive and below 65536 |
| Constants.CyclingCounts | src/utils/constants.ts:58-243 | a rule list whose keys cycle remote, warning, default holds ⌈n/3⌉, ⌈(n-1)/3⌉ and ⌊n/3⌋ rules of each key |
| Constants.StatusKeysCycle | src/utils/constants.ts:58-243 | across both words the keys cycle remote, warning, default, ten of each |
| Grouping.ProcessHeatPumpStatus | src/utils/switchCodeUtil.ts:23-36 | a record is unchanged unless its code contains `heatPumpStatus` and its value is an integer; then code, name, mode and time are kept, the value becomes the label or `未知状态`, the data type `-` and the unit empty |
| Grouping.ProcessHeatPumpStatusIdempotent | src/utils/switchCodeUtil.ts:23-36 | relabelling twice is relabelling once; code and access mode never change; a numeric result means the record was left alone |
| Grouping.FindRule | src/utils/switchCodeUtil.ts:49 | the rule found is the first, in list order, whose prefix the code starts with; none found means no prefix matches |
| Grouping.GroupKeyOfRule | src/utils/switchCodeUtil.ts:48-50 | the group key is the prefix of the matching rule, and `other` exactly when no prefix matches |
| Grouping.GroupDeviceData | src/utils/switchCodeUtil.ts:43-63 | proved equal to `GroupAll`: the loop builds the reduction; every bucket holds exactly its records in input order, an empty bucket never exists, bucket sizes add up to the input length, and no key repeats |
| Grouping.GroupAllBucket | src/utils/switchCodeUtil.ts:46-62 | `GroupAll`: each bucket is the processed records of its mode and group in input order, and it exists exactly when that list is non-empty |
| Grouping.AddRecordBucket | src/utils/switchCodeUtil.ts:52-60 | `AddRecord`: one step extends the record's own bucket by that record and leaves every other bucket as it was |
| Grouping.StepIsAddRecord | src/utils/switchCodeUtil.ts:52-60 | `AddRecord`: the lazy creation of the mode table and the bucket followed by the push is that one step |
| Grouping.GroupAllModes | src/utils/switchCodeUtil.ts:52-54 | `GroupAll`: an access mode is a key of the table exactly when some record has it |
| Grouping.GroupAllDistinct | src/utils/switchCodeUtil.ts:52-58 | `GroupAll`: no mode and no group key occurs twice |
| Grouping.GroupAllTotal | src/utils/switchCodeUtil.ts:46-62 | `GroupAll`: the bucket sizes add up to the number of input records |
| Grouping.MembersContains | src/utils/switchCodeUtil.ts:47-60 | `GroupAll`: every input record, processed, is in the bucket of its own mode and group |
| Grouping.FindByCode | src/hooks/useHummingBird.tsx:65-74 | `find` returns the first record of the list with the code, or nothing when no record has it |
| Grouping.SwitchNumOfData | src/hooks/useHummingBird.tsx:62 | `SwitchNum`: the switch word is the last read-write record, in input order, that falls in no prefix group |
| Grouping.StatusRecordOfData | src/hooks/useHummingBird.tsx:65-74 | `StatusRecord`: for a code in no prefix group and not a heat-pump status code, the selector returns the first read-only record with that code, as it arrived |
| StatusWords.StatusLabelDistinguishes | src/utils/switchCodeUtil.ts:86-98 | `StatusLabel`: for remote, warning and default the set and clear labels differ; every other key reads `未知` |
| StatusWords.StatusWord | src/utils/switchCodeUtil.ts:79 | the status word lies in [0, 65536) and is the unsigned 32-bit form of the value modulo 2^16 |
| StatusWords.ProcessStatusItems | src/utils/switchCodeUtil.ts:72-77 | with no status record the initial result comes back unchanged |
| StatusWords.FoldItems | src/utils/switchCodeUtil.ts:81-107 | `Fold`: under every key the reduce leaves the initial list followed by that key's rules decoded, in rule order; a key is present exactly when it was before or some rule has it |
| StatusWords.ProcessStatusItemsByKey | src/utils/switchCodeUtil.ts:72-108 | `ProcessStatusItems`: per key: the initial list, then that key's decoded items when a record is present |
| StatusWords.GetDeviceStatus | src/utils/switchCodeUtil.ts:116-122 | the result is empty when either status record is missing |
| StatusWords.BothWords | src/utils/switchCodeUtil.ts:124-133 | `GetDeviceStatus`: with both records, the first table is decoded against the first word, then the second table against the second word on top of it |
| StatusWords.GetDeviceStatusByKey | src/utils/switchCodeUtil.ts:124-133 | `GetDeviceStatus`: under every key the first word's items come before the second word's |
| StatusWords.TwoWordsCount | src/utils/switchCodeUtil.ts:124-133 | `GetDeviceStatus`: a key lists as many items as the two tables have rules with that key |
| StatusWords.CyclingKeys | src/utils/switchCodeUtil.ts:100-106 | `Fold`: three or more rules whose keys cycle open exactly the keys remote, warning, default, in that order |
| StatusWords.GetDeviceStatusShape | src/utils/switchCodeUtil.ts:116-134 | `GetDeviceStatus`: with both records the result has keys remote, warning, default in that order and ten items under each |
| StatusWords.StatusWordOfInteger | src/utils/switchCodeUtil.ts:79 | `StatusWord`: an integer reading is taken modulo 2^16 |
| StatusWords.DecodeModulo | src/utils/switchCodeUtil.ts:79-82 | `ProcessStatusItems`: two integer readings that differ by a multiple of 65536 decode identically |
| StatusWords.StatusWordShift | src/utils/switchCodeUtil.ts:79 | `StatusWord`: adding 65536 to an integer reading leaves its status word unchanged |
| StatusWords.SeventeenBitsReadAsSixteen | src/utils/switchCodeUtil.ts:79 | `StatusWord`: a 16-bit reading with bit 16 added decodes as the reading itself (for example 0x1FFFF reads as 0xFFFF) |
| StatusWords.StatusWordBit | src/utils/switchCodeUtil.ts:79-82 | `StatusWord`: bits 0-15 of the status word are bits 0-15 of the reading |
| StatusWords.FirstWordFlag | src/utils/switchCodeUtil.ts:82-104 | `DecodeItem` of `StatusWord`: flag i of the first word is labelled from bit i of the reading, so no configured bit is lost |
| StatusWords.SecondWordFlag | src/utils/switchCodeUtil.ts:82-104 | `DecodeItem` of `StatusWord`: flag i of the second word is labelled from bit i of the reading |
| Switches.IsSwitchOnBit | src/utils/switchCodeUtil.ts:167-174 | `IsSwitchOn`: with mask 1<<i, a switch is on exactly when bit i is set for the water pump and clear for any other switch |
| Switches.SwitchItems | src/utils/switchCodeUtil.ts:146-157 | one item per mask entry in order, code and name copied, the label `开启 ✅` exactly when `isSwitchOn` holds with the water-pump flag |
| Switches.GetSwitchList | src/utils/switchCodeUtil.ts:141-142 | the list is empty exactly when the record is missing or its value is falsy, 0 included |
| Switches.GetSwitchListBits | src/utils/switchCodeUtil.ts:141-157 | `GetSwitchList`: with a truthy word: nine items in table order; item i reads on exactly when bit i is set for the water pump (bit 8) and clear for the others, and off otherwise |
| Switches.ToggleUint32 | src/utils/switchCodeUtil.ts:182-184 | `ToggleSwitch`: the unsigned form of the toggled word is the XOR of the unsigned forms |
| Switches.ToggleBits | src/utils/switchCodeUtil.ts:182-184 | `ToggleSwitch`: toggling flips exactly the bits set in the mask |
| Switches.ToggleTwice | src/utils/switchCodeUtil.ts:182-184 | `ToggleSwitch`: toggling twice with the same mask restores any 32-bit signed word |
| Switches.ToggleFlipsOneSwitch | src/utils/switchCodeUtil.ts:167-184 | `ToggleSwitch` with `IsSwitchOn`: toggling switch i flips switch i and no other |
| DeviceDataMap.BuildDataMap | src/components/hummingbird/DeviceStatusList.tsx:115-118 | the map has no repeated code |
| DeviceDataMap.BuildDataMapLast | src/components/hummingbird/DeviceStatusList.tsx:115-118 | `BuildDataMap` against `LastValue`: the map holds, for each code, the value of the last record with that code |
| DeviceDataMap.LastValueNone | src/components/hummingbird/DeviceStatusList.tsx:115-118 | `LastValue`: there is no value for a code exactly when no record has it |
| DeviceDataMap.Lookup | src/components/hummingbird/DeviceStatusList.tsx:123 | the lookup yields a truthy value or 0, and 0 for a missing code |
| DeviceDataMap.LookupLast | src/components/hummingbird/DeviceStatusList.tsx:115-123 | `Lookup` on `BuildDataMap`: looking up the built map reads the last record with the code, falling back to 0 |
| MonitorPanel.DataCategoriesDistinct | src/components/hummingbird/DeviceMonitorPanel.tsx:15-72 | eight categories with distinct keys, none of them `other` |
| MonitorPanel.ReadOnly | src/components/hummingbird/DeviceMonitorPanel.tsx:164-167 | the read-only data are exactly the records with access mode `R` |
| MonitorPanel.ShowsNoData | src/components/hummingbird/DeviceMonitorPanel.tsx:192-198 | the "no data" view shows exactly when no record is read-only |
| MonitorPanel.FirstMatchAccepts | src/components/hummingbird/DeviceMonitorPanel.tsx:175-183 | `FirstMatch`: the category chosen accepts the code and no earlier category does |
| MonitorPanel.FirstMatchAtMost | src/components/hummingbird/DeviceMonitorPanel.tsx:175-183 | `FirstMatch`: a code some category accepts is placed no later than that category |
| MonitorPanel.FirstMatchNone | src/components/hummingbird/DeviceMonitorPanel.tsx:175-187 | `FirstMatch`: no category is chosen exactly when no filter accepts the code |
| MonitorPanel.UsedMember | src/components/hummingbird/DeviceMonitorPanel.tsx:172-183 | `Used`: before category k, the used set is exactly the codes present whose first accepting category is before k |
| MonitorPanel.Placed | src/components/hummingbird/DeviceMonitorPanel.tsx:176-183 | every record in bucket k comes from the data and has category k as its first match |
| MonitorPanel.CategorizeStep | src/components/hummingbird/DeviceMonitorPanel.tsx:176-183 | `Used` and `Placed`: one filter step: a used code is skipped, an accepted unused code is appended and marked used, anything else is skipped |
| MonitorPanel.TakeCategory | src/components/hummingbird/DeviceMonitorPanel.tsx:176-183 | the filter for one category yields its bucket and the used set for the next category |
| MonitorPanel.UnusedIsUnplaced | src/components/hummingbird/DeviceMonitorPanel.tsx:187 | `Unused` against `Unplaced`: the `other` bucket, filtered by the final used set, is the records no category takes |
| MonitorPanel.Categorize | src/components/hummingbird/DeviceMonitorPanel.tsx:170-190 | the loop over the categories builds the category buckets, then `other` |
| MonitorPanel.CategorizedDataGet | src/components/hummingbird/DeviceMonitorPanel.tsx:170-190 | `CategorizedData`: with distinct category keys, each key reads its bucket and `other` reads the unplaced records |
| MonitorPanel.PlacedDistinct | src/components/hummingbird/DeviceMonitorPanel.tsx:176-183 | `Placed`: when codes are distinct, a record is in bucket k exactly when k is its first match |
| MonitorPanel.PartitionCount | src/components/hummingbird/DeviceMonitorPanel.tsx:175-187 | `Placed` and `Unplaced`: when codes are distinct, the buckets and `other` together hold every record exactly once |
| MonitorPanel.LaterDuplicateDropped | src/components/hummingbird/DeviceMonitorPanel.tsx:177-187 | `Placed` and `Unplaced`: a later record whose code was already placed lands in no bucket and not in `other` |
| MonitorPanel.StatusCodesFirst | src/components/hummingbird/DeviceMonitorPanel.tsx:15-21 | `FirstMatch`: a code containing `heatPumpStatus` goes to the first category |
| MonitorPanel.HeatPumpTemperaturesSecond | src/components/hummingbird/DeviceMonitorPanel.tsx:22-38 | `FirstMatch`: a heat-pump temperature code goes to the second category and the supply-temperature filter rejects it |
| MonitorPanel.FormatValue | src/components/hummingbird/DeviceMonitorPanel.tsx:75-89 | strings pass through; the result is missing only for a non-integral status number |
| MonitorPanel.FormatStatusVersusProcessing | src/components/hummingbird/DeviceMonitorPanel.tsx:77-79 | `FormatValue`: a status integer shows the same label as relabelling gives, and `状态码: N` where relabelling gives `未知状态`; N reads back as the status |
| MonitorPanel.FormatIntegerRoundTrip | src/components/hummingbird/DeviceMonitorPanel.tsx:82-85 | `FormatValue`: a non-status natural number without unit is shown as text that reads back as the number |
| MonitorPanel.TemperatureColors | src/components/hummingbird/DeviceMonitorPanel.tsx:96-101 | `ValueColor`: temperature bands: red above 45, amber in (35, 45], blue below 10, green in [10, 35] |
| MonitorPanel.TemperatureMonotone | src/components/hummingbird/DeviceMonitorPanel.tsx:96-101 | `ValueColor`: a warmer reading never gets a colder colour (blue, green, amber, red in that order) |
| MonitorPanel.FrequencyColors | src/components/hummingbird/DeviceMonitorPanel.tsx:104-108 | `ValueColor`: frequency: grey exactly at 0, green from 50, amber otherwise |
| MonitorPanel.PressureColors | src/components/hummingbird/DeviceMonitorPanel.tsx:111-114 | `ValueColor`: pressure: red above 1000, green otherwise |
| MonitorCompact.GroupIsFilter | src/components/hummingbird/DeviceMonitorCompact.tsx:102-128 | `GroupData` with `Accepts`: each group is one filter of the records: exactly the read-only ones its condition accepts, in input order |
| MonitorCompact.Count | src/components/hummingbird/DeviceMonitorCompact.tsx:162 | the count is at most the number of records and is 0 exactly when the panel would show no data |
| MonitorCompact.GroupsWithinCount | src/components/hummingbird/DeviceMonitorCompact.tsx:103-127 | `GroupData` and `Count`: no group is larger than the read-only count |
| MonitorCompact.OutsideTempInTwoGroups | src/components/hummingbird/DeviceMonitorCompact.tsx:109-126 | `Accepts`: a read-only `outsideTemp` record is in both `temp` and `other`: the groups are not a partition |
| MonitorCompact.TempExcludesStatus | src/components/hummingbird/DeviceMonitorCompact.tsx:106-112 | `Accepts`: `temp` holds no heat-pump status code, so `temp` and `heatPump` never share a record |
| MonitorCompact.HeatPumpGroupIsPanelCategory | src/components/hummingbird/DeviceMonitorCompact.tsx:106-108 | `GroupData` against `MonitorPanel.Placed`: with distinct codes, the `heatPump` group is the panel's first category |
| MonitorCompact.FormatValue | src/components/hummingbird/DeviceMonitorCompact.tsx:12-20 | strings pass through; the result is missing only for a non-integral status number |
| MonitorCompact.FormatStatus | src/components/hummingbird/DeviceMonitorCompact.tsx:13-15 | `FormatValue`: a status integer shows its label, or `状态码: N` for a missing key |
| MonitorCompact.FormatAgreesWithPanel | src/components/hummingbird/DeviceMonitorCompact.tsx:12-20 | `FormatValue` against `MonitorPanel.FormatValue`: the two formatters agree on status codes, strings and unit-less integers; the panel appends the unit; non-integers get one place here and two in the panel |
| MonitorCompact.FormatIntegerRoundTrip | src/components/hummingbird/DeviceMonitorCompact.tsx:16-17 | `FormatValue`: a non-status natural number is shown as text that reads back as the number |
| MonitorCompact.ColorsVersusPanel | src/components/hummingbird/DeviceMonitorCompact.tsx:23-42 | `DataItemColor` against `MonitorPanel.ValueColor`: temperature colours match the panel; frequency matches except that 0 is `#64748b`; every other number and every string is cyan |
| MonitorCompact.FrequencyColors | src/components/hummingbird/DeviceMonitorCompact.tsx:30-34 | `DataItemColor`: frequency: `#64748b` exactly at 0, green from 50, amber otherwise |
| StatusList.FrequencyDataOfRecords | src/components/hummingbird/DeviceStatusList.tsx:12-23 | `FrequencyData`: ten entries in configuration order, each with the last recorded value of its code or 0, and 0 when no record has the code |
| StatusList.FrequencyCodesDistinct | src/components/hummingbird/DeviceStatusList.tsx:12-23 | the ten frequency codes are distinct |
| StatusList.BarWidth | src/components/hummingbird/DeviceStatusList.tsx:49 | the width is at most 100, exactly 100 from 50 Hz, and twice the value below |
| StatusList.BarWidthMonotone | src/components/hummingbird/DeviceStatusList.tsx:30-49 | `BarWidth` and `PumpRunning`: the bar never shrinks as the value grows, and a running pump has a visible bar |
| StatusList.PumpTextInteger | src/components/hummingbird/DeviceStatusList.tsx:41 | `ToFixed`: an integral frequency is shown as its integer text |
| StatusList.FrequencyCard | src/components/hummingbird/DeviceStatusList.tsx:26-54 | a card carries the entry's short caption; it runs exactly for a positive frequency, its bar is at most 100 and full exactly from 50 Hz, a running pump has a visible bar, an integral frequency shows its integer text; a frequency arriving as text gives no card |
| StatusList.ZeroFrequencyCard | src/components/hummingbird/DeviceStatusList.tsx:120-126 | `FrequencyCard`: a zero reading, which is what a pump with no record reads, shows a stopped card with text `0` and an empty bar |
| StatusList.Tone | src/components/hummingbird/DeviceStatusList.tsx:66-73 | warning styling exactly for 11, 18, 19; running exactly for 5, 6, 7, 16, 17, 25; idle otherwise |
| StatusList.ClassifiedStatusesLabelled | src/components/hummingbird/DeviceStatusList.tsx:65-67 | `IsRunning` and `IsWarning`: every running and every warning status has a label |
| StatusList.StatusText | src/components/hummingbird/DeviceStatusList.tsx:65 | a known status shows its label, any other integer its decimal text; missing only for a non-integral number |
| StatusList.KeyOfNatText | src/components/hummingbird/DeviceStatusList.tsx:65 | `KeyOfText`: the table is indexed by the canonical decimal text of a key |
| StatusList.TextStatusReadsAsNumber | src/components/hummingbird/DeviceStatusList.tsx:65-67 | `StatusText` and `Tone`: a status arriving as decimal text shows the same text as the number, but is never styled running or warning |
| StatusList.Card | src/components/hummingbird/DeviceStatusList.tsx:155-170 | a card's status is the looked-up status or 0, and its text and tone follow from it |
| StatusList.HeatPumpCards | src/components/hummingbird/DeviceStatusList.tsx:155-170 | two cards numbered 1 and 2, reading the first and the second status codes; card 1 reads the four `...First` temperature codes and card 2 the four `...Third` ones |
| StatusList.MissingStatusIsStandby | src/components/hummingbird/DeviceStatusList.tsx:157-165 | `HeatPumpCards`: a unit with no status record, or a falsy one, shows `机组待机` and is styled idle |
| StatusList.TemperatureText | src/components/hummingbird/DeviceStatusList.tsx:94-104 | a missing temperature shows `-`; there is no text only for a string value |
| StatusList.RecordedTemperatureShown | src/components/hummingbird/DeviceStatusList.tsx:94-104 | `TemperatureText`: a recorded temperature never shows `-`, and 0 shows as `0.0` |
| PressureChart.PressureBands | src/components/hummingbird/PressureChart.tsx:31-37 | `PressureColor`: with a positive threshold: red above 1.1×, amber in (0.95×, 1.1×], slate below 0.2×, cyan otherwise |
| PressureChart.RatioCompare | src/components/hummingbird/PressureChart.tsx:32-35 | `Divide`: comparing the ratio with a constant is comparing the value with that multiple of the threshold |
| PressureChart.ZeroReadingSlate | src/components/hummingbird/PressureChart.tsx:35 | `PressureColor`: a zero reading is slate under any positive threshold |
| PressureChart.ZeroThreshold | src/components/hummingbird/PressureChart.tsx:31-37 | `PressureColor`: a zero threshold makes a positive value red, a negative one slate and 0 cyan (division by zero); no configured threshold is zero, so this is a defensive statement about the colour function |
| PressureChart.SeverityMonotone | src/components/hummingbird/PressureChart.tsx:31-37 | `Severity` of `PressureColor`: the severity of the colour never falls as the value grows |
| PressureChart.ChartData | src/components/hummingbird/PressureChart.tsx:42-52 | the chart is empty exactly when there are no records |
| PressureChart.ChartDataOfRecords | src/components/hummingbird/PressureChart.tsx:21-52 | `ChartData` and `EntryColor`: six rows in configuration order with thresholds 1100, 1100, 700, 700, 100, 100, each with the last recorded value or 0; a missing code is 0 and slate |
| EnergyMeterChart.PowerBands | src/components/hummingbird/EnergyMeterChart.tsx:27-32 | `PowerColor`: low below 10, medium in [10, 30), high in [30, 50), critical from 50 |
| EnergyMeterChart.BandMonotone | src/components/hummingbird/EnergyMeterChart.tsx:27-32 | `Band` of `PowerColor`: the band never falls as the value grows |
| EnergyMeterChart.ChartData | src/components/hummingbird/EnergyMeterChart.tsx:56-64 | one row per meter |
| EnergyMeterChart.ChartDataOfRecords | src/components/hummingbird/EnergyMeterChart.tsx:56-64 | `ChartData`: six rows in meter order, name the label, full label the label plus `电表`, value the last recorded value or 0 |
| EnergyMeterChart.TotalPower | src/components/hummingbird/EnergyMeterChart.tsx:66-69 | a numeric total exists exactly when every row is numeric |
| EnergyMeterChart.TotalIsSum | src/components/hummingbird/EnergyMeterChart.tsx:66-69 | `TotalPower`: the total is the sum of the row values |
| EnergyMeterChart.NoMetersTotalZero | src/components/hummingbird/EnergyMeterChart.tsx:62-69 | `ChartData` and `TotalPower`: with no meter codes present the total is 0 |
| EnergyMeterChart.TotalNonNegative | src/components/hummingbird/EnergyMeterChart.tsx:66-69 | `TotalPower`: non-negative readings give a non-negative total |

## Left out

- Floating point: NaN, infinities, `-0` and binary rounding are not modelled. The one division, in the pressure colour, is modelled with its infinite and NaN quotients.
- `toFixed` is exact rounding (half up) over reals, and `IntText` writes every digit of an integer. JavaScript rounds the binary double, and both `toFixed` and `String(n)` switch to exponent form (`1e+21`) from 1e21 on, so `FormatValue`, `StatusText` and the card texts differ from the source for integers that large.
- Number coercion of text: only plain digit strings read as their number. Signs, fractions, exponents, hexadecimal and surrounding spaces read as 0, where JavaScript would parse them. Text that is not a number at all, such as `n/a`, reads as 0 where JavaScript gives NaN: `PressureChart.EntryColor` colours such a reading slate, where in the source every comparison with NaN fails and the bar is cyan.
- MonitorPanel.FormatValue, MonitorCompact.FormatValue and StatusList.StatusText: `String(x)` of a non-integral number is not modelled; those cases return no text.
- StatusList.TemperatureText: `toFixed` on a string value throws in the source; the model returns no text.
- StatusList.FrequencyCard: a frequency that arrives as text gives no card, where the source coerces it for `> 0` and `* 2` and then throws at `toFixed(0)`.
- EnergyMeterChart.TotalPower: a string reading makes the source concatenate text; the model returns no total.
- The water-tank volume shown to two places in the status list (`DeviceStatusList.tsx:146`) is not modelled.
- Tooltips, axes, icons, expanded/collapsed state, loading and error views, and all rendering are not modelled.
- Polling, the network and React state are not modelled. The hook's selectors are modelled as functions over the grouped table.
- The lookup-only charts (`EnergyHeatMeterChart.tsx`, `FlowMeterChart.tsx`, `TemperatureChart.tsx`) are not part of this model.
- Indexing `HEAT_PUMP_STATUS_MASK` with text that names an inherited object property (such as `constructor`) is not modelled; only the table's own keys are.
