/**
 * `processHeatPumpStatus` and `groupDeviceData`: relabel heat-pump status
 * readings, then sort the readings into buckets by access mode and by the
 * first configured code prefix they start with. The selectors the polling
 * hook applies to the grouped table are at the end.
 */
module Grouping {
  import opened Wrappers
  import opened JsOps
  import opened Assoc
  import opened DeviceTypes
  import opened Constants

  /** Marker in the code of a heat-pump status reading. */
  const HEAT_PUMP_STATUS: string := "heatPumpStatus"

  /** Label for a heat-pump status code that the table does not know. */
  const UNKNOWN_STATUS: string := "未知状态"

  /** Group of a record whose code starts with no configured prefix. */
  const OTHER: string := "other"

  /** A record that `processHeatPumpStatus` rewrites: a status code with an integer value. */
  predicate IsHeatPumpStatusReading(p: DeviceProperty)
  {
    Contains(p.code, HEAT_PUMP_STATUS) && p.value.Num? && IsInteger(p.value.x)
  }

  /**
   * `processHeatPumpStatus`: a heat-pump status reading gets its table label
   * (or the unknown-status label) as value, data type `-` and no unit; every
   * other record is returned as it is.
   */
  function ProcessHeatPumpStatus(p: DeviceProperty): (r: DeviceProperty)
    ensures !IsHeatPumpStatusReading(p) ==> r == p
    ensures IsHeatPumpStatusReading(p) ==>
      && r.code == p.code && r.name == p.name && r.accessMode == p.accessMode && r.time == p.time
      && r.dataType == "-" && r.unit == ""
      && r.value == Str(if p.value.x.Floor in HEAT_PUMP_STATUS_MASK
                        then HEAT_PUMP_STATUS_MASK[p.value.x.Floor] else UNKNOWN_STATUS)
  {
    if Contains(p.code, HEAT_PUMP_STATUS) && p.value.Num? && IsInteger(p.value.x) then
      p.(value := Str(HeatPumpLabel(p.value.x).GetOr(UNKNOWN_STATUS)), dataType := "-", unit := "")
    else
      p
  }

  /** Relabelling only ever changes value, data type and unit, and doing it twice is doing it once. */
  lemma ProcessHeatPumpStatusIdempotent(p: DeviceProperty)
    ensures ProcessHeatPumpStatus(ProcessHeatPumpStatus(p)) == ProcessHeatPumpStatus(p)
    ensures ProcessHeatPumpStatus(p).code == p.code && ProcessHeatPumpStatus(p).accessMode == p.accessMode
    ensures ProcessHeatPumpStatus(p).value.Num? ==> ProcessHeatPumpStatus(p) == p
  {
  }

  /** `rules.find(r => code.startsWith(r.prefix))`, as the index of the rule found, searching from `from`. */
  function FindRule(rules: seq<DeviceRule>, code: string, from: nat): (r: Option<nat>)
    requires from <= |rules|
    ensures r.Some? ==> from <= r.value < |rules| && StartsWith(code, rules[r.value].prefix)
    ensures r.Some? ==> forall j :: from <= j < r.value ==> !StartsWith(code, rules[j].prefix)
    ensures r.None? ==> forall j :: from <= j < |rules| ==> !StartsWith(code, rules[j].prefix)
    decreases |rules| - from
  {
    if from == |rules| then None
    else if StartsWith(code, rules[from].prefix) then Some(from)
    else FindRule(rules, code, from + 1)
  }

  /** `DEVICE_RULES.find(...)?.prefix || 'other'` */
  function GroupKeyOf(code: string): string
  {
    match FindRule(DEVICE_RULES, code, 0)
    case Some(i) => if DEVICE_RULES[i].prefix != "" then DEVICE_RULES[i].prefix else OTHER
    case None => OTHER
  }

  /**
   * The group of a code is the prefix of the rule it starts with (there is at
   * most one), and `other` exactly when it starts with none.
   */
  lemma GroupKeyOfRule(code: string)
    ensures forall i :: 0 <= i < |DEVICE_RULES| && StartsWith(code, DEVICE_RULES[i].prefix) ==>
      GroupKeyOf(code) == DEVICE_RULES[i].prefix
    ensures GroupKeyOf(code) == OTHER <==>
      forall i :: 0 <= i < |DEVICE_RULES| ==> !StartsWith(code, DEVICE_RULES[i].prefix)
  {
    DeviceRulePrefixes();
    forall i | 0 <= i < |DEVICE_RULES| && StartsWith(code, DEVICE_RULES[i].prefix)
      ensures GroupKeyOf(code) == DEVICE_RULES[i].prefix
    {
      var j := FindRule(DEVICE_RULES, code, 0).value;
      AtMostOneRuleMatches(code, i, j);
    }
  }

  /** The grouped table: access mode, then group key, then the records in arrival order. */
  type Groups = seq<(string, seq<DeviceProperty>)>
  type Grouped = seq<(AccessMode, Groups)>

  /** `result[mode]?.[key]` */
  function Bucket(g: Grouped, m: AccessMode, k: string): Option<seq<DeviceProperty>>
  {
    match Get(g, m)
    case Some(groups) => Get(groups, k)
    case None => None
  }

  /** One step of the reduction: push an already processed record onto its bucket, creating it if needed. */
  function AddRecord(g: Grouped, p: DeviceProperty): Grouped
  {
    var groups := Get(g, p.accessMode).GetOr([]);
    var key := GroupKeyOf(p.code);
    Put(g, p.accessMode, Put(groups, key, Get(groups, key).GetOr([]) + [p]))
  }

  /** The table `groupDeviceData` builds from `xs`: its reduction, record by record. */
  function GroupAll(xs: seq<DeviceProperty>): Grouped
  {
    if xs == [] then []
    else AddRecord(GroupAll(xs[..|xs| - 1]), ProcessHeatPumpStatus(xs[|xs| - 1]))
  }

  /** Independent reference: the processed records of `xs` with mode `m` and group `k`, in input order. */
  function Members(xs: seq<DeviceProperty>, m: AccessMode, k: string): seq<DeviceProperty>
  {
    if xs == [] then []
    else
      var q := ProcessHeatPumpStatus(xs[|xs| - 1]);
      Members(xs[..|xs| - 1], m, k) + (if q.accessMode == m && GroupKeyOf(q.code) == k then [q] else [])
  }

  /** Number of records in all buckets. */
  function Total(g: Grouped): nat
  {
    SumOf(g, GroupsSize)
  }

  function GroupsSize(groups: Groups): nat
  {
    SumOf(groups, BucketSize)
  }

  function BucketSize(b: seq<DeviceProperty>): nat
  {
    |b|
  }

  /**
   * Every bucket holds exactly the processed records of its mode and group,
   * in input order, and no bucket is ever empty: a bucket exists exactly
   * when some record belongs to it.
   */
  lemma {:induction false} GroupAllBucket(xs: seq<DeviceProperty>, m: AccessMode, k: string)
    ensures Bucket(GroupAll(xs), m, k) ==
      (if Members(xs, m, k) == [] then None else Some(Members(xs, m, k)))
  {
    if xs != [] {
      var pre := xs[..|xs| - 1];
      var p := ProcessHeatPumpStatus(xs[|xs| - 1]);
      GroupAllBucket(pre, m, k);
      assert GroupAll(xs) == AddRecord(GroupAll(pre), p);
      AddRecordBucket(GroupAll(pre), p, m, k);
      if m == p.accessMode && k == GroupKeyOf(p.code) {
        assert Members(xs, m, k) == Members(pre, m, k) + [p];
      } else {
        assert Members(xs, m, k) == Members(pre, m, k);
      }
    }
  }

  /** Adding a record extends its own bucket by that record and leaves every other bucket alone. */
  lemma AddRecordBucket(g: Grouped, p: DeviceProperty, m: AccessMode, k: string)
    ensures Bucket(AddRecord(g, p), m, k) ==
      if m == p.accessMode && k == GroupKeyOf(p.code) then Some(Bucket(g, m, k).GetOr([]) + [p])
      else Bucket(g, m, k)
  {
    var groups := Get(g, p.accessMode).GetOr([]);
    var key := GroupKeyOf(p.code);
    var groups' := Put(groups, key, Get(groups, key).GetOr([]) + [p]);
    assert Get(AddRecord(g, p), p.accessMode) == Some(groups');
    if m != p.accessMode {
      assert Get(AddRecord(g, p), m) == Get(g, m);
    } else if Get(g, m).None? {
      assert groups == [];
    }
  }

  /** Adding a record adds its mode to the table and no other. */
  lemma AddRecordModes(g: Grouped, p: DeviceProperty, m: AccessMode)
    ensures Get(AddRecord(g, p), m).Some? <==> Get(g, m).Some? || m == p.accessMode
  {
    if m != p.accessMode {
      assert Get(AddRecord(g, p), m) == Get(g, m);
    }
  }

  /** Some record of `xs` has access mode `m`. */
  predicate HasMode(xs: seq<DeviceProperty>, m: AccessMode)
  {
    exists i :: 0 <= i < |xs| && xs[i].accessMode == m
  }

  lemma HasModeSnoc(xs: seq<DeviceProperty>, m: AccessMode)
    requires xs != []
    ensures HasMode(xs, m) <==> HasMode(xs[..|xs| - 1], m) || xs[|xs| - 1].accessMode == m
  {
    var pre := xs[..|xs| - 1];
    if HasMode(pre, m) {
      var i :| 0 <= i < |pre| && pre[i].accessMode == m;
      assert xs[i] == pre[i];
    }
    if HasMode(xs, m) {
      var i :| 0 <= i < |xs| && xs[i].accessMode == m;
      if i < |pre| {
        assert xs[i] == pre[i];
      }
    }
  }

  /** An access mode is a key of the table exactly when some record has that mode. */
  lemma {:induction false} GroupAllModes(xs: seq<DeviceProperty>, m: AccessMode)
    ensures Get(GroupAll(xs), m).Some? <==> HasMode(xs, m)
  {
    if xs != [] {
      var pre := xs[..|xs| - 1];
      var p := ProcessHeatPumpStatus(xs[|xs| - 1]);
      GroupAllModes(pre, m);
      assert GroupAll(xs) == AddRecord(GroupAll(pre), p);
      AddRecordModes(GroupAll(pre), p, m);
      HasModeSnoc(xs, m);
    }
  }

  /** No key occurs twice, neither among the modes nor among the groups of a mode. */
  ghost predicate DistinctTable(g: Grouped)
  {
    && DistinctKeys(g)
    && forall m :: Get(g, m).Some? ==> DistinctKeys(Get(g, m).value)
  }

  lemma {:induction false} GroupAllDistinct(xs: seq<DeviceProperty>)
    ensures DistinctTable(GroupAll(xs))
  {
    if xs != [] {
      var pre := xs[..|xs| - 1];
      GroupAllDistinct(pre);
      var g := GroupAll(pre);
      var p := ProcessHeatPumpStatus(xs[|xs| - 1]);
      var groups := Get(g, p.accessMode).GetOr([]);
      assert DistinctKeys(groups);
    }
  }

  /** The bucket sizes add up to the number of input records: nothing is lost or duplicated. */
  lemma {:induction false} GroupAllTotal(xs: seq<DeviceProperty>)
    ensures Total(GroupAll(xs)) == |xs|
  {
    if xs != [] {
      var pre := xs[..|xs| - 1];
      GroupAllTotal(pre);
      var g := GroupAll(pre);
      var p := ProcessHeatPumpStatus(xs[|xs| - 1]);
      var groups := Get(g, p.accessMode).GetOr([]);
      var key := GroupKeyOf(p.code);
      var bucket := Get(groups, key).GetOr([]);
      SumOfPut(groups, key, bucket + [p], BucketSize);
      SumOfPut(g, p.accessMode, Put(groups, key, bucket + [p]), GroupsSize);
    }
  }

  /** Record `i` of the input, processed, is in the bucket of its own mode and group. */
  lemma {:induction false} MembersContains(xs: seq<DeviceProperty>, i: nat)
    requires i < |xs|
    ensures ProcessHeatPumpStatus(xs[i]) in
      Members(xs, xs[i].accessMode, GroupKeyOf(xs[i].code))
  {
    if i < |xs| - 1 {
      MembersContains(xs[..|xs| - 1], i);
    }
  }

  /**
   * `groupDeviceData`: one pass over the records, creating the mode table and
   * the group list on first use and appending each processed record.
   */
  method GroupDeviceData(deviceData: seq<DeviceProperty>) returns (result: Grouped)
    ensures result == GroupAll(deviceData)
    ensures forall m, k :: (Bucket(result, m, k) ==
      if Members(deviceData, m, k) == [] then None else Some(Members(deviceData, m, k)))
    ensures Total(result) == |deviceData|
    ensures DistinctTable(result)
  {
    result := [];
    var i := 0;
    assert deviceData[..i] == [];
    while i < |deviceData|
      invariant 0 <= i <= |deviceData|
      invariant result == GroupAll(deviceData[..i])
    {
      var processedProp := ProcessHeatPumpStatus(deviceData[i]);
      var targetGroupKey := GroupKeyOf(processedProp.code);
      var mode := processedProp.accessMode;
      ghost var before := result;
      if Get(result, mode).None? {
        result := Put(result, mode, []);
      }
      var groups := Get(result, mode).value;
      if Get(groups, targetGroupKey).None? {
        groups := Put(groups, targetGroupKey, []);
        result := Put(result, mode, groups);
      }
      var bucket := Get(groups, targetGroupKey).value;
      result := Put(result, mode, Put(groups, targetGroupKey, bucket + [processedProp]));
      StepIsAddRecord(before, processedProp);
      assert result == AddRecord(before, processedProp);
      GroupAllPrefix(deviceData, i);
      assert result == GroupAll(deviceData[..i + 1]);
      i := i + 1;
      assert result == GroupAll(deviceData[..i]);
    }
    assert deviceData[..i] == deviceData;
    GroupAllFacts(deviceData);
  }

  /** The grouping of all records: every bucket, the total and the distinct tables. */
  lemma GroupAllFacts(deviceData: seq<DeviceProperty>)
    ensures forall m, k :: (Bucket(GroupAll(deviceData), m, k) ==
      if Members(deviceData, m, k) == [] then None else Some(Members(deviceData, m, k)))
    ensures Total(GroupAll(deviceData)) == |deviceData|
    ensures DistinctTable(GroupAll(deviceData))
  {
    forall m, k ensures Bucket(GroupAll(deviceData), m, k) ==
      (if Members(deviceData, m, k) == [] then None else Some(Members(deviceData, m, k)))
    {
      GroupAllBucket(deviceData, m, k);
    }
    GroupAllTotal(deviceData);
    GroupAllDistinct(deviceData);
  }

  /** One more record of the input is one more `AddRecord`. */
  lemma GroupAllPrefix(xs: seq<DeviceProperty>, i: nat)
    requires i < |xs|
    ensures GroupAll(xs[..i + 1]) == AddRecord(GroupAll(xs[..i]), ProcessHeatPumpStatus(xs[i]))
  {
    assert xs[..i + 1][..i] == xs[..i];
  }

  /** The lazy creation of the mode table and the bucket, then the push, is `AddRecord`. */
  lemma StepIsAddRecord(g: Grouped, p: DeviceProperty)
    ensures
      var mode, key := p.accessMode, GroupKeyOf(p.code);
      var g1 := if Get(g, mode).None? then Put(g, mode, []) else g;
      var groups1 := Get(g1, mode).value;
      var groups2 := if Get(groups1, key).None? then Put(groups1, key, []) else groups1;
      var g2 := if Get(groups1, key).None? then Put(g1, mode, groups2) else g1;
      Put(g2, mode, Put(groups2, key, Get(groups2, key).value + [p])) == AddRecord(g, p)
  {
    var mode, key := p.accessMode, GroupKeyOf(p.code);
    var groups := Get(g, mode).GetOr([]);
    var g1 := if Get(g, mode).None? then Put(g, mode, []) else g;
    assert Get(g1, mode).value == groups;
    var groups2 := if Get(groups, key).None? then Put(groups, key, []) else groups;
    var g2 := if Get(groups, key).None? then Put(g1, mode, groups2) else g1;
    var bucket := Get(groups, key).GetOr([]);
    assert Get(groups2, key).value == bucket;
    if Get(groups, key).None? {
      PutPut(groups, key, [], bucket + [p]);
      PutPut(g1, mode, groups2, Put(groups2, key, bucket + [p]));
    }
    if Get(g, mode).None? {
      PutPut(g, mode, [], Put(groups, key, bucket + [p]));
      if Get(groups, key).None? {
        PutPut(g, mode, [], groups2);
        PutPut(g, mode, groups2, Put(groups, key, bucket + [p]));
      }
    }
  }

  // ---------------------------------------------------------------- the hook's selectors

  /** `groupedData.RW?.other?.at(-1)`: the switch control word record. */
  function SwitchNum(g: Grouped): Option<DeviceProperty>
  {
    match Bucket(g, RW, OTHER)
    case Some(b) => if b == [] then None else Some(b[|b| - 1])
    case None => None
  }

  /** `xs.find(v => v.code === code)` */
  function FindByCode(xs: seq<DeviceProperty>, code: string): (r: Option<DeviceProperty>)
    ensures r.Some? ==> r.value in xs && r.value.code == code
    ensures r.Some? ==> exists i :: 0 <= i < |xs| && xs[i] == r.value && forall j :: 0 <= j < i ==> xs[j].code != code
    ensures r.None? ==> forall i :: 0 <= i < |xs| ==> xs[i].code != code
  {
    if xs == [] then None
    else if xs[0].code == code then Some(xs[0])
    else FindByCode(xs[1..], code)
  }

  /** `groupedData.R?.other?.find(v => v.code === code)`: a status word record. */
  function StatusRecord(g: Grouped, code: string): Option<DeviceProperty>
  {
    match Bucket(g, R, OTHER)
    case Some(b) => FindByCode(b, code)
    case None => None
  }

  /** The switch word is the last read-write record, in input order, that falls in no prefix group. */
  lemma SwitchNumOfData(xs: seq<DeviceProperty>)
    ensures SwitchNum(GroupAll(xs)) ==
      (var ms := Members(xs, RW, OTHER); if ms == [] then None else Some(ms[|ms| - 1]))
  {
    GroupAllBucket(xs, RW, OTHER);
    SwitchNumOfBucket(GroupAll(xs), Members(xs, RW, OTHER));
  }

  lemma SwitchNumOfBucket(g: Grouped, ms: seq<DeviceProperty>)
    requires Bucket(g, RW, OTHER) == (if ms == [] then None else Some(ms))
    ensures SwitchNum(g) == (if ms == [] then None else Some(ms[|ms| - 1]))
  {
  }

  /** The first read-only record of `xs`, unprocessed, that carries `code`. */
  function FirstReadOnly(xs: seq<DeviceProperty>, code: string): Option<DeviceProperty>
  {
    if xs == [] then None
    else if xs[0].accessMode == R && xs[0].code == code then Some(xs[0])
    else FirstReadOnly(xs[1..], code)
  }

  /**
   * For a code outside every prefix group that is not a heat-pump status code
   * (such as `statusCodeFirst`), the selector finds the first read-only record
   * with that code, exactly as it arrived.
   */
  lemma StatusRecordOfData(xs: seq<DeviceProperty>, code: string)
    requires GroupKeyOf(code) == OTHER && !Contains(code, HEAT_PUMP_STATUS)
    ensures StatusRecord(GroupAll(xs), code) == FirstReadOnly(xs, code)
  {
    GroupAllBucket(xs, R, OTHER);
    FindInMembers(xs, code);
  }

  lemma {:induction false} FindInMembers(xs: seq<DeviceProperty>, code: string)
    requires GroupKeyOf(code) == OTHER && !Contains(code, HEAT_PUMP_STATUS)
    ensures FindByCode(Members(xs, R, OTHER), code) == FirstReadOnly(xs, code)
  {
    if xs != [] {
      var pre := xs[..|xs| - 1];
      var last := xs[|xs| - 1];
      assert xs == pre + [last];
      var q := ProcessHeatPumpStatus(last);
      var tail := if q.accessMode == R && GroupKeyOf(q.code) == OTHER then [q] else [];
      assert Members(xs, R, OTHER) == Members(pre, R, OTHER) + tail;
      FindInMembers(pre, code);
      FindAppend(Members(pre, R, OTHER), tail, code);
      FirstReadOnlySnoc(pre, last, code);
      FindInTail(last, code);
    }
  }

  /** The last record contributes to the search exactly when it is a read-only record with the code. */
  lemma FindInTail(last: DeviceProperty, code: string)
    requires GroupKeyOf(code) == OTHER && !Contains(code, HEAT_PUMP_STATUS)
    ensures var q := ProcessHeatPumpStatus(last);
      FindByCode(if q.accessMode == R && GroupKeyOf(q.code) == OTHER then [q] else [], code) ==
      (if last.accessMode == R && last.code == code then Some(last) else None)
  {
  }

  lemma {:induction false} FindAppend(a: seq<DeviceProperty>, b: seq<DeviceProperty>, code: string)
    ensures FindByCode(a + b, code) == if FindByCode(a, code).Some? then FindByCode(a, code) else FindByCode(b, code)
  {
    if a == [] {
      assert a + b == b;
    } else {
      assert (a + b)[0] == a[0];
      assert (a + b)[1..] == a[1..] + b;
      FindAppend(a[1..], b, code);
    }
  }

  lemma {:induction false} FirstReadOnlySnoc(a: seq<DeviceProperty>, x: DeviceProperty, code: string)
    ensures FirstReadOnly(a + [x], code) ==
      if FirstReadOnly(a, code).Some? then FirstReadOnly(a, code)
      else if x.accessMode == R && x.code == code then Some(x) else None
  {
    if a != [] {
      assert (a + [x])[1..] == a[1..] + [x];
      FirstReadOnlySnoc(a[1..], x, code);
    }
  }
}
