/**
 * The records the decoder consumes and produces: a device property as polled
 * from the device, the static mask and prefix rules, and the decoded items.
 */
module DeviceTypes {
  import opened Wrappers
  import opened JsOps

  /** `access_mode`: read-only, read-write or write-only. */
  datatype AccessMode = R | RW | W

  /** `value: number | string` */
  datatype Value = Num(x: real) | Str(s: string)

  /** One property reading of the device. `time` is the optional timestamp. */
  datatype DeviceProperty = DeviceProperty(
    code: string,
    name: string,
    value: Value,
    dataType: string,
    unit: string,
    accessMode: AccessMode,
    time: Option<real>)

  /** A grouping rule: records whose code starts with `prefix` form one group. */
  datatype DeviceRule = DeviceRule(name: string, prefix: string)

  /** One switch of the control word. */
  datatype SwitchMaskItem = SwitchMaskItem(bitMask: int, name: string, code: string)

  /** One flag of a status word; `key` is `remote`, `warning` or `default`. */
  datatype StatusMaskItem = StatusMaskItem(bitMask: int, name: string, code: string, key: string)

  /** `StatusMaskItem & { value: string }`: a rule with its decoded label. */
  datatype StatusItem = StatusItem(rule: StatusMaskItem, value: string)

  /** `StatusItemResult`: decoded items by key, keys in insertion order. */
  type StatusItemResult = seq<(string, seq<StatusItem>)>

  /** One row of the switch list. */
  datatype SwitchListItem = SwitchListItem(code: string, name: string, value: string)

  /** JavaScript truthiness of a value: every number but 0, every string but the empty one. */
  predicate IsTruthy(v: Value)
  {
    match v
    case Num(x) => x != 0.0
    case Str(s) => s != ""
  }

  /** `value as number` where an arithmetic or bitwise operator consumes it. */
  function NumberOf(v: Value): (x: real)
    ensures !IsTruthy(v) ==> x == 0.0
    ensures v.Num? ==> x == v.x
  {
    match v
    case Num(x) => x
    case Str(s) => TextToNumber(s)
  }
}
