/**
 * `new Map(deviceData.map(d => [d.code, d.value]))` and the
 * `dataMap.get(code) || 0` lookup that the status list and the charts share.
 */
module DeviceDataMap {
  import opened Wrappers
  import opened Assoc
  import opened DeviceTypes

  type DataMap = seq<(string, Value)>

  /** The map built from the records: each record sets its code, so a later record for a code replaces an earlier one. */
  function BuildDataMap(deviceData: seq<DeviceProperty>): (m: DataMap)
    ensures DistinctKeys(m)
  {
    if deviceData == [] then []
    else
      var last := deviceData[|deviceData| - 1];
      Put(BuildDataMap(deviceData[..|deviceData| - 1]), last.code, last.value)
  }

  /** Independent reference: the value of the last record with code `code`, if any. */
  function LastValue(deviceData: seq<DeviceProperty>, code: string): Option<Value>
  {
    if deviceData == [] then None
    else if deviceData[|deviceData| - 1].code == code then Some(deviceData[|deviceData| - 1].value)
    else LastValue(deviceData[..|deviceData| - 1], code)
  }

  /** There is no last value exactly when no record has the code. */
  lemma {:induction false} LastValueNone(deviceData: seq<DeviceProperty>, code: string)
    ensures LastValue(deviceData, code).None? <==> forall i :: 0 <= i < |deviceData| ==> deviceData[i].code != code
  {
    if deviceData != [] {
      var pre := deviceData[..|deviceData| - 1];
      LastValueNone(pre, code);
      assert forall i :: 0 <= i < |pre| ==> pre[i] == deviceData[i];
    }
  }

  /** The map holds, for every code, the value of the last record with that code. */
  lemma {:induction false} BuildDataMapLast(deviceData: seq<DeviceProperty>, code: string)
    ensures Get(BuildDataMap(deviceData), code) == LastValue(deviceData, code)
  {
    if deviceData != [] {
      BuildDataMapLast(deviceData[..|deviceData| - 1], code);
    }
  }

  /** `dataMap.get(code) || 0`: the stored value unless it is missing or falsy, then 0. */
  function Lookup(m: DataMap, code: string): (v: Value)
    ensures IsTruthy(v) || v == Num(0.0)
    ensures Get(m, code).None? ==> v == Num(0.0)
  {
    match Get(m, code)
    case Some(v) => if IsTruthy(v) then v else Num(0.0)
    case None => Num(0.0)
  }

  /** The lookup in the map built from the records reads the last record with the code. */
  lemma LookupLast(deviceData: seq<DeviceProperty>, code: string)
    ensures Lookup(BuildDataMap(deviceData), code) ==
      match LastValue(deviceData, code)
      case Some(v) => if IsTruthy(v) then v else Num(0.0)
      case None => Num(0.0)
  {
    BuildDataMapLast(deviceData, code);
  }
}
