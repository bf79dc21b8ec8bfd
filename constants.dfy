/**
 * The static configuration tables: grouping prefixes, the switch bits of the
 * control word, the heat-pump status labels and the flag bits of the two
 * status words. Lemmas below state the shape of each table.
 */
module Constants {
  import opened Wrappers
  import opened JsOps
  import opened DeviceTypes

  /** `DEVICE_RULES`: group prefixes, tried in this order. */
  const DEVICE_RULES: seq<DeviceRule> := [
    DeviceRule("低区设备属性", "low"),
    DeviceRule("高区设备属性", "high"),
    DeviceRule("深井设备属性", "well"),
    DeviceRule("热泵设备属性", "heatPump")
  ]

  /** `SWITCH_MASK`: one bit of the control word per switch. */
  const SWITCH_MASK: seq<SwitchMaskItem> := [
    SwitchMaskItem(1, "高区1#循环泵", "hightCirculationFirst"),
    SwitchMaskItem(2, "高区2#循环泵", "hightCirculationSecond"),
    SwitchMaskItem(4, "低区1#循环泵", "lowCirculationFirst"),
    SwitchMaskItem(8, "低区2#循环泵", "lowCirculationSecond"),
    SwitchMaskItem(16, "低区3#循环泵", "lowCirculationThird"),
    SwitchMaskItem(32, "深井1#循环泵", "wellCirculationFirst"),
    SwitchMaskItem(64, "深井2#循环泵", "wellCirculationSecond"),
    SwitchMaskItem(128, "深井3#循环泵", "wellCirculationThird"),
    SwitchMaskItem(256, "水泵系统启停控制", "waterPump")
  ]

  /** The one switch whose bit reads "on" when set. */
  const WATER_PUMP: string := "waterPump"

  /** `HEAT_PUMP_STATUS_MASK`: labels of the heat-pump status codes. */
  const HEAT_PUMP_STATUS_MASK: map<int, string> := map[
    0 := "机组待机",
    4 := "压缩机启动延时",
    5 := "机组正在启动",
    6 := "机组制冷中",
    7 := "机组制热中",
    8 := "温度到,机组暂停",
    9 := "压缩机停机延时",
    11 := "机组报警⚠️⚠️",
    16 := "防冻运行中",
    17 := "机组除霜运行中",
    18 := "出水温度过高,机组暂停⚠️⚠️",
    19 := "出水温度过低,机组暂停⚠️⚠️",
    24 := "机组正在停机",
    25 := "机组井水降温中"
  ]

  /** `STATUS_MASK.statusFirst`: the flags of the first status word. */
  const STATUS_FIRST: seq<StatusMaskItem> := [
    StatusMaskItem(1, "高区1#循环泵远程状态", "hightCirculationRemoteStatuFirst", "remote"),
    StatusMaskItem(2, "高区1#循环泵故障状态", "hightCirculationWarningStatuFirst", "warning"),
    StatusMaskItem(4, "高区1#循环泵运行状态", "hightCirculationStatuFirst", "default"),
    StatusMaskItem(8, "高区2#循环泵远程状态", "hightCirculationRemoteStatuSecond", "remote"),
    StatusMaskItem(16, "高区2#循环泵故障状态", "hightCirculationWarningStatuSecond", "warning"),
    StatusMaskItem(32, "高区2#循环泵运行状态", "hightCirculationStatuSecond", "default"),
    StatusMaskItem(64, "高区补水泵远程状态", "hightSupplyPumpRemoteStatu", "remote"),
    StatusMaskItem(128, "高区补水泵故障状态", "hightSupplyPumpWarningStatu", "warning"),
    StatusMaskItem(256, "高区补水泵运行状态", "hightSupplyPumpStatu", "default"),
    StatusMaskItem(512, "低区1#循环泵远程状态", "lowCirculationRemoteStatuFirst", "remote"),
    StatusMaskItem(1024, "低区1#循环泵故障状态", "lowCirculationWarningStatuFirst", "warning"),
    StatusMaskItem(2048, "低区1#循环泵运行状态", "lowCirculationStatuFirst", "default"),
    StatusMaskItem(4096, "低区2#循环泵远程状态", "lowCirculationRemoteStatuSecond", "remote"),
    StatusMaskItem(8192, "低区2#循环泵故障状态", "lowCirculationWarningStatuSecond", "warning"),
    StatusMaskItem(16384, "低区2#循环泵运行状态", "lowCirculationStatuSecond", "default"),
    StatusMaskItem(32768, "低区3#循环泵远程状态", "lowCirculationRemoteStatuThird", "remote")
  ]

  /** `STATUS_MASK.statusSecond`: the flags of the second status word. */
  const STATUS_SECOND: seq<StatusMaskItem> := [
    StatusMaskItem(1, "低区3#循环泵故障状态", "lowCirculationWarningStatuThird", "warning"),
    StatusMaskItem(2, "低区3#循环泵运行状态", "lowCirculationStatuThird", "default"),
    StatusMaskItem(4, "低区补水泵远程状态", "lowSupplyPumpRemoteStatu", "remote"),
    StatusMaskItem(8, "低区补水泵故障状态", "lowSupplyPumpWarningStatu", "warning"),
    StatusMaskItem(16, "低区补水泵运行状态", "lowSupplyPumpStatu", "default"),
    StatusMaskItem(32, "1#深井泵远程状态", "deepWellRemoteStatuFirst", "remote"),
    StatusMaskItem(64, "1#深井泵故障状态", "deepWellWarningStatuFirst", "warning"),
    StatusMaskItem(128, "1#深井泵运行状态", "deepWellStatuFirst", "default"),
    StatusMaskItem(256, "2#深井泵远程状态", "deepWellRemoteStatuSecond", "remote"),
    StatusMaskItem(512, "2#深井泵故障状态", "deepWellWarningtatuSecond", "warning"),
    StatusMaskItem(1024, "2#深井泵运行状态", "deepWellStatuSecond", "default"),
    StatusMaskItem(2048, "3#深井泵远程状态", "deepWellRemoteStatuThird", "remote"),
    StatusMaskItem(4096, "3#深井泵故障状态", "deepWellWarningStatuThird", "warning"),
    StatusMaskItem(8192, "3#深井泵运行状态", "deepWellStatuThird", "default")
  ]

  /**
   * `HEAT_PUMP_STATUS_MASK[x]` when it yields a non-empty label: the number
   * must be an integer that is a key of the table.
   */
  function HeatPumpLabel(x: real): (r: Option<string>)
    ensures r.Some? <==> IsInteger(x) && x.Floor in HEAT_PUMP_STATUS_MASK
    ensures r.Some? ==> r.value == HEAT_PUMP_STATUS_MASK[x.Floor]
  {
    HeatPumpLabelsNonEmpty();
    if IsInteger(x) && x.Floor in HEAT_PUMP_STATUS_MASK && HEAT_PUMP_STATUS_MASK[x.Floor] != ""
    then Some(HEAT_PUMP_STATUS_MASK[x.Floor])
    else None
  }

  /** The table has exactly these fourteen keys, and no label is empty. */
  lemma HeatPumpLabelsNonEmpty()
    ensures HEAT_PUMP_STATUS_MASK.Keys == {0, 4, 5, 6, 7, 8, 9, 11, 16, 17, 18, 19, 24, 25}
    ensures forall k :: k in HEAT_PUMP_STATUS_MASK ==> HEAT_PUMP_STATUS_MASK[k] != ""
  {
  }

  /** The four prefixes, in priority order. */
  lemma DeviceRulePrefixes()
    ensures |DEVICE_RULES| == 4
    ensures DEVICE_RULES[0].prefix == "low" && DEVICE_RULES[1].prefix == "high"
    ensures DEVICE_RULES[2].prefix == "well" && DEVICE_RULES[3].prefix == "heatPump"
    ensures forall i, j :: 0 <= i < |DEVICE_RULES| && 0 <= j < |DEVICE_RULES| && i != j ==>
      !StartsWith(DEVICE_RULES[j].prefix, DEVICE_RULES[i].prefix)
  {
    forall i, j | 0 <= i < |DEVICE_RULES| && 0 <= j < |DEVICE_RULES| && i != j
      ensures !StartsWith(DEVICE_RULES[j].prefix, DEVICE_RULES[i].prefix)
    {
      var a, b := DEVICE_RULES[i].prefix, DEVICE_RULES[j].prefix;
      DifferAt(a, b, if a[0] != b[0] then 0 else 1);
    }
  }

  /** Strings that differ at a common index do not start one another. */
  lemma DifferAt(a: string, b: string, k: nat)
    requires k < |a| && k < |b| && a[k] != b[k]
    ensures !StartsWith(a, b) && !StartsWith(b, a)
  {
    if |a| <= |b| {
      assert b[..|a|][k] == b[k];
    }
    if |b| <= |a| {
      assert a[..|b|][k] == a[k];
    }
  }

  /** One of two prefixes of the same string is a prefix of the other. */
  lemma PrefixesNest(code: string, a: string, b: string)
    requires StartsWith(code, a) && StartsWith(code, b) && |a| <= |b|
    ensures StartsWith(b, a)
  {
    assert b[..|a|] == code[..|b|][..|a|];
  }

  /** Because no prefix starts another, at most one rule matches any code. */
  lemma AtMostOneRuleMatches(code: string, i: nat, j: nat)
    requires i < |DEVICE_RULES| && j < |DEVICE_RULES|
    requires StartsWith(code, DEVICE_RULES[i].prefix) && StartsWith(code, DEVICE_RULES[j].prefix)
    ensures i == j
  {
    DeviceRulePrefixes();
    var a, b := DEVICE_RULES[i].prefix, DEVICE_RULES[j].prefix;
    if |a| <= |b| { PrefixesNest(code, a, b); } else { PrefixesNest(code, b, a); }
  }

  lemma {:induction false} SwitchMaskBit(i: nat)
    requires i < |SWITCH_MASK|
    ensures SWITCH_MASK[i].bitMask == Pow2(i)
  {
    if i > 0 {
      SwitchMaskBit(i - 1);
      assert SWITCH_MASK[i].bitMask == 2 * SWITCH_MASK[i - 1].bitMask;
    }
  }

  /** Nine switches on bits 0..8, distinct codes, and only the bit-8 switch is the water pump. */
  lemma SwitchMaskShape()
    ensures |SWITCH_MASK| == 9
    ensures forall i :: 0 <= i < 9 ==> SWITCH_MASK[i].bitMask == Pow2(i)
    ensures forall i, j :: 0 <= i < j < 9 ==> SWITCH_MASK[i].code != SWITCH_MASK[j].code
    ensures forall i :: 0 <= i < 9 ==> (SWITCH_MASK[i].code == WATER_PUMP <==> i == 8)
  {
    forall i | 0 <= i < 9 ensures SWITCH_MASK[i].bitMask == Pow2(i) {
      SwitchMaskBit(i);
    }
  }

  lemma {:induction false} StatusFirstBit(i: nat)
    requires i < |STATUS_FIRST|
    ensures STATUS_FIRST[i].bitMask == Pow2(i)
  {
    if i > 0 {
      StatusFirstBit(i - 1);
      assert STATUS_FIRST[i].bitMask == 2 * STATUS_FIRST[i - 1].bitMask;
    }
  }

  lemma {:induction false} StatusSecondBit(i: nat)
    requires i < |STATUS_SECOND|
    ensures STATUS_SECOND[i].bitMask == Pow2(i)
  {
    if i > 0 {
      StatusSecondBit(i - 1);
      assert STATUS_SECOND[i].bitMask == 2 * STATUS_SECOND[i - 1].bitMask;
    }
  }

  /**
   * Sixteen flags on bits 0..15 in the first word, fourteen on bits 0..13 in
   * the second; every mask is below 2^16.
   */
  lemma StatusMaskShape()
    ensures |STATUS_FIRST| == 16 && |STATUS_SECOND| == 14
    ensures forall i :: 0 <= i < 16 ==> STATUS_FIRST[i].bitMask == Pow2(i)
    ensures forall i :: 0 <= i < 14 ==> STATUS_SECOND[i].bitMask == Pow2(i)
    ensures forall i :: 0 <= i < 16 ==> 0 < STATUS_FIRST[i].bitMask < 0x1_0000
    ensures forall i :: 0 <= i < 14 ==> 0 < STATUS_SECOND[i].bitMask < 0x1_0000
  {
    forall i | 0 <= i < 16 ensures STATUS_FIRST[i].bitMask == Pow2(i) {
      StatusFirstBit(i);
    }
    forall i | 0 <= i < 14 ensures STATUS_SECOND[i].bitMask == Pow2(i) {
      StatusSecondBit(i);
    }
  }

  const KEY_CYCLE: seq<string> := ["remote", "warning", "default"]

  /** Number of rules with key `k`. */
  function CountKey(rules: seq<StatusMaskItem>, k: string): nat
  {
    if rules == [] then 0
    else CountKey(rules[..|rules| - 1], k) + (if rules[|rules| - 1].key == k then 1 else 0)
  }

  /** In a sequence whose keys cycle remote, warning, default, each key has its share. */
  lemma {:induction false} CyclingCounts(rules: seq<StatusMaskItem>)
    requires forall i :: 0 <= i < |rules| ==> rules[i].key == KEY_CYCLE[i % 3]
    ensures CountKey(rules, "remote") == (|rules| + 2) / 3
    ensures CountKey(rules, "warning") == (|rules| + 1) / 3
    ensures CountKey(rules, "default") == |rules| / 3
  {
    if rules != [] {
      var m := |rules| - 1;
      var pre := rules[..m];
      assert forall i :: 0 <= i < |pre| ==> pre[i] == rules[i];
      CyclingCounts(pre);
      assert rules[m].key == KEY_CYCLE[m % 3];
      ThirdsStep(m);
    }
  }

  /** How the three shares grow when one more element is counted. */
  lemma ThirdsStep(m: nat)
    ensures (m + 3) / 3 == (m + 2) / 3 + (if m % 3 == 0 then 1 else 0)
    ensures (m + 2) / 3 == (m + 1) / 3 + (if m % 3 == 1 then 1 else 0)
    ensures (m + 1) / 3 == m / 3 + (if m % 3 == 2 then 1 else 0)
  {
    var q, r := m / 3, m % 3;
    assert m == 3 * q + r;
  }

  lemma FirstKeysCycle()
    ensures forall i :: 0 <= i < 16 ==> STATUS_FIRST[i].key == KEY_CYCLE[i % 3]
  {
  }

  lemma SecondKeysCycle()
    ensures forall i :: 0 <= i < 14 ==> STATUS_SECOND[i].key == KEY_CYCLE[(i + 16) % 3]
  {
  }

  /** Across both words the keys cycle remote, warning, default: ten flags of each. */
  lemma StatusKeysCycle()
    ensures forall i :: 0 <= i < 30 ==> (STATUS_FIRST + STATUS_SECOND)[i].key == KEY_CYCLE[i % 3]
    ensures CountKey(STATUS_FIRST + STATUS_SECOND, "remote") == 10
    ensures CountKey(STATUS_FIRST + STATUS_SECOND, "warning") == 10
    ensures CountKey(STATUS_FIRST + STATUS_SECOND, "default") == 10
  {
    var all := STATUS_FIRST + STATUS_SECOND;
    FirstKeysCycle();
    SecondKeysCycle();
    assert |all| == 30;
    forall i | 0 <= i < 30 ensures all[i].key == KEY_CYCLE[i % 3] {
      if i < 16 {
        assert all[i] == STATUS_FIRST[i];
      } else {
        assert all[i] == STATUS_SECOND[i - 16];
      }
    }
    CyclingCounts(all);
  }
}
