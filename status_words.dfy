/**
 * `processStatusItems` and `getDeviceStatus`: decode the two 16-bit status
 * words of the plant against their flag tables. Every flag becomes one
 * labelled item, filed under the flag's key (`remote`, `warning` or
 * `default`), in table order; the second word's items follow the first's.
 */
module StatusWords {
  import opened Wrappers
  import opened JsOps
  import opened Assoc
  import opened DeviceTypes
  import opened Constants

  const REMOTE: string := "remote"
  const WARNING: string := "warning"
  const DEFAULT: string := "default"

  /** The label of a flag with key `key` whose bit is set or clear. */
  function StatusLabel(key: string, isBitSet: bool): string
  {
    if key == WARNING then (if isBitSet then "警告⚠️⚠️" else "未警告")
    else if key == REMOTE then (if isBitSet then "可远程" else "本地")
    else if key == DEFAULT then (if isBitSet then "正在运行" else "停止")
    else "未知"
  }

  /** For each of the three keys the label tells a set bit from a clear one; any other key reads `未知`. */
  lemma StatusLabelDistinguishes(key: string)
    ensures key == REMOTE || key == WARNING || key == DEFAULT <==>
      StatusLabel(key, true) != StatusLabel(key, false)
    ensures key != REMOTE && key != WARNING && key != DEFAULT ==> StatusLabel(key, true) == "未知"
  {
  }

  /** `((statusCode.value as number) >>> 0) & 0xffff`: the status word, its low 16 bits. */
  function StatusWord(v: Value): (w: int)
    ensures 0 <= w < 0x1_0000
    ensures w == ToUint32(NumberOf(v)) % 0x1_0000
  {
    var u := ToUint32(NumberOf(v));
    AndLowSixteen(u);
    BitAnd(u as real, 0xffff as real)
  }

  /** `(currentItem.bitMask & curStatusCode) !== 0` */
  predicate IsBitSet(bitMask: int, word: int)
  {
    BitAnd(bitMask as real, word as real) != 0
  }

  /** `{ ...currentItem, value: statusValue }` */
  function DecodeItem(rule: StatusMaskItem, word: int): StatusItem
  {
    StatusItem(rule, StatusLabel(rule.key, IsBitSet(rule.bitMask, word)))
  }

  /** `result[key] || []` */
  function Items(r: StatusItemResult, key: string): seq<StatusItem>
  {
    Get(r, key).GetOr([])
  }

  /** One step of the reduce: the rule's list under its key, extended by its decoded item. */
  function Step(result: StatusItemResult, rule: StatusMaskItem, word: int): StatusItemResult
  {
    Put(result, rule.key, Items(result, rule.key) + [DecodeItem(rule, word)])
  }

  /** `statusArray.reduce(step, initialResult)` */
  function Fold(rules: seq<StatusMaskItem>, word: int, acc: StatusItemResult): StatusItemResult
  {
    if rules == [] then acc
    else Step(Fold(rules[..|rules| - 1], word, acc), rules[|rules| - 1], word)
  }

  /**
   * `processStatusItems`: with no status record the initial result comes
   * back unchanged; otherwise each rule is decoded against the record's word.
   */
  function ProcessStatusItems(statusArray: seq<StatusMaskItem>, statusCode: Option<DeviceProperty>,
                              initialResult: StatusItemResult): (r: StatusItemResult)
    ensures statusCode.None? ==> r == initialResult
  {
    match statusCode
    case None => initialResult
    case Some(p) => Fold(statusArray, StatusWord(p.value), initialResult)
  }

  /** Independent reference: the decoded items of the rules with key `key`, in rule order. */
  function KeyItems(rules: seq<StatusMaskItem>, word: int, key: string): seq<StatusItem>
  {
    if rules == [] then []
    else
      var last := rules[|rules| - 1];
      KeyItems(rules[..|rules| - 1], word, key) + (if last.key == key then [DecodeItem(last, word)] else [])
  }

  /**
   * Under every key the reduce leaves the initial list followed by the items
   * of that key's rules, in rule order; a key is present afterwards exactly
   * when it was before or some rule carries it.
   */
  lemma {:induction false} FoldItems(rules: seq<StatusMaskItem>, word: int, acc: StatusItemResult, key: string)
    ensures Items(Fold(rules, word, acc), key) == Items(acc, key) + KeyItems(rules, word, key)
    ensures Get(Fold(rules, word, acc), key).Some? <==> Get(acc, key).Some? || KeyItems(rules, word, key) != []
  {
    if rules != [] {
      var pre := rules[..|rules| - 1];
      var last := rules[|rules| - 1];
      FoldItems(pre, word, acc, key);
      if last.key == key {
        assert Items(acc, key) + KeyItems(rules, word, key) ==
          Items(acc, key) + KeyItems(pre, word, key) + [DecodeItem(last, word)];
      } else {
        assert KeyItems(rules, word, key) == KeyItems(pre, word, key);
      }
    } else {
      assert Items(acc, key) + [] == Items(acc, key);
    }
  }

  /** `processStatusItems` per key: the initial list, then the decoded items of that key, if there is a record. */
  lemma ProcessStatusItemsByKey(statusArray: seq<StatusMaskItem>, statusCode: Option<DeviceProperty>,
                                initialResult: StatusItemResult, key: string)
    ensures Items(ProcessStatusItems(statusArray, statusCode, initialResult), key) ==
      Items(initialResult, key) +
      (if statusCode.Some? then KeyItems(statusArray, StatusWord(statusCode.value.value), key) else [])
  {
    if statusCode.Some? {
      FoldItems(statusArray, StatusWord(statusCode.value.value), initialResult, key);
    } else {
      assert Items(initialResult, key) + [] == Items(initialResult, key);
    }
  }

  /** `getDeviceStatus`: nothing unless both status records are present. */
  function GetDeviceStatus(statusCodeFirst: Option<DeviceProperty>,
                           statusCodeSecond: Option<DeviceProperty>): (r: StatusItemResult)
    ensures statusCodeFirst.None? || statusCodeSecond.None? ==> r == []
  {
    if statusCodeFirst.None? || statusCodeSecond.None? then []
    else
      var firstPart := ProcessStatusItems(STATUS_FIRST, statusCodeFirst, []);
      ProcessStatusItems(STATUS_SECOND, statusCodeSecond, firstPart)
  }

  /** With both records, the first table is decoded against the first word, then the second table against the second. */
  lemma BothWords(first: DeviceProperty, second: DeviceProperty)
    ensures GetDeviceStatus(Some(first), Some(second)) ==
      Fold(STATUS_SECOND, StatusWord(second.value), Fold(STATUS_FIRST, StatusWord(first.value), []))
  {
  }

  /** With both records, every key lists the first word's items for it, then the second word's. */
  lemma GetDeviceStatusByKey(first: DeviceProperty, second: DeviceProperty, key: string)
    ensures Items(GetDeviceStatus(Some(first), Some(second)), key) ==
      KeyItems(STATUS_FIRST, StatusWord(first.value), key) + KeyItems(STATUS_SECOND, StatusWord(second.value), key)
  {
    var w1, w2 := StatusWord(first.value), StatusWord(second.value);
    BothWords(first, second);
    TwoWordsByKey(STATUS_FIRST, STATUS_SECOND, w1, w2, key);
  }

  // ---------------------------------------------------------------- the keys of the result

  lemma {:induction false} KeyItemsCount(rules: seq<StatusMaskItem>, word: int, key: string)
    ensures |KeyItems(rules, word, key)| == CountKey(rules, key)
  {
    if rules != [] {
      KeyItemsCount(rules[..|rules| - 1], word, key);
    }
  }

  lemma {:induction false} CountKeyAppend(a: seq<StatusMaskItem>, b: seq<StatusMaskItem>, key: string)
    ensures CountKey(a + b, key) == CountKey(a, key) + CountKey(b, key)
  {
    if b == [] {
      assert a + b == a;
    } else {
      assert (a + b)[..|a + b| - 1] == a + b[..|b| - 1];
      CountKeyAppend(a, b[..|b| - 1], key);
    }
  }

  lemma {:induction false} FoldAppend(a: seq<StatusMaskItem>, b: seq<StatusMaskItem>, word: int, acc: StatusItemResult)
    ensures Fold(a + b, word, acc) == Fold(b, word, Fold(a, word, acc))
  {
    if b == [] {
      assert a + b == a;
    } else {
      assert (a + b)[..|a + b| - 1] == a + b[..|b| - 1];
      FoldAppend(a, b[..|b| - 1], word, acc);
    }
  }

  /** Rules whose keys are all present already do not change the order of the keys. */
  lemma {:induction false} FoldKeysStable(rules: seq<StatusMaskItem>, word: int, acc: StatusItemResult)
    requires forall i :: 0 <= i < |rules| ==> rules[i].key in Keys(acc)
    ensures Keys(Fold(rules, word, acc)) == Keys(acc)
  {
    if rules != [] {
      var pre := rules[..|rules| - 1];
      var last := rules[|rules| - 1];
      FoldKeysStable(pre, word, acc);
      HasKeyInKeys(acc, last.key);
      FoldItems(pre, word, acc, last.key);
    }
  }

  /** The keys of `rules` run remote, warning, default, remote, ... from the first rule on. */
  ghost predicate KeysCycle(rules: seq<StatusMaskItem>)
  {
    forall i :: 0 <= i < |rules| ==> rules[i].key == KEY_CYCLE[i % 3]
  }

  /** Three rules keyed remote, warning, default open those three keys, in that order. */
  lemma OpeningKeys(rules: seq<StatusMaskItem>, word: int)
    requires |rules| == 3 && rules[0].key == REMOTE && rules[1].key == WARNING && rules[2].key == DEFAULT
    ensures Keys(Fold(rules, word, [])) == [REMOTE, WARNING, DEFAULT]
  {
    var empty: StatusItemResult := [];
    assert rules[..1][..0] == [];
    assert Fold(rules[..1], word, empty) == Step(empty, rules[0], word);
    var r1 := Fold(rules[..1], word, empty);
    assert !HasKey(empty, REMOTE);
    assert Keys(empty) == [];
    assert Keys(r1) == [REMOTE];
    HasKeyInKeys(r1, WARNING);
    assert rules[..2][..1] == rules[..1];
    assert Fold(rules[..2], word, empty) == Step(r1, rules[1], word);
    var r2 := Fold(rules[..2], word, empty);
    assert Keys(r2) == [REMOTE, WARNING];
    HasKeyInKeys(r2, DEFAULT);
    assert rules[..3][..2] == rules[..2];
    assert rules[..3] == rules;
    assert Fold(rules, word, empty) == Step(r2, rules[2], word);
  }

  /** Rules whose keys cycle from the first rule on, three or more of them, open exactly remote, warning and default. */
  lemma CyclingKeys(rules: seq<StatusMaskItem>, word: int)
    requires |rules| >= 3 && KeysCycle(rules)
    ensures Keys(Fold(rules, word, [])) == [REMOTE, WARNING, DEFAULT]
  {
    var opening, rest := rules[..3], rules[3..];
    assert rules == opening + rest;
    FoldAppend(opening, rest, word, []);
    OpeningKeys(opening, word);
    var r3 := Fold(opening, word, []);
    forall i | 0 <= i < |rest| ensures rest[i].key in Keys(r3) {
      assert rest[i] == rules[i + 3];
    }
    FoldKeysStable(rest, word, r3);
  }

  /**
   * Two words decoded one after the other, with keys cycling from the first
   * rule on, file their items under exactly remote, warning and default.
   */
  lemma TwoWordsKeys(rules1: seq<StatusMaskItem>, rules2: seq<StatusMaskItem>, w1: int, w2: int)
    requires |rules1| >= 3 && KeysCycle(rules1 + rules2)
    ensures Keys(Fold(rules2, w2, Fold(rules1, w1, []))) == [REMOTE, WARNING, DEFAULT]
  {
    var all := rules1 + rules2;
    forall i | 0 <= i < |rules1| ensures rules1[i].key == KEY_CYCLE[i % 3] {
      assert all[i] == rules1[i];
    }
    CyclingKeys(rules1, w1);
    var firstPart := Fold(rules1, w1, []);
    forall i | 0 <= i < |rules2| ensures rules2[i].key in Keys(firstPart) {
      assert all[i + |rules1|] == rules2[i];
    }
    FoldKeysStable(rules2, w2, firstPart);
  }

  /** Two words decoded one after the other: under each key, the first word's items, then the second's. */
  lemma TwoWordsByKey(rules1: seq<StatusMaskItem>, rules2: seq<StatusMaskItem>, w1: int, w2: int, key: string)
    ensures Items(Fold(rules2, w2, Fold(rules1, w1, [])), key) == KeyItems(rules1, w1, key) + KeyItems(rules2, w2, key)
  {
    var empty: StatusItemResult := [];
    var mid := Fold(rules1, w1, empty);
    assert Items(empty, key) == [] by {
      assert !HasKey(empty, key);
    }
    FoldItems(rules1, w1, empty, key);
    FoldItems(rules2, w2, mid, key);
  }

  /** The number of items under a key is the number of rules of both tables with that key. */
  lemma TwoWordsCount(rules1: seq<StatusMaskItem>, rules2: seq<StatusMaskItem>, w1: int, w2: int, key: string)
    ensures |Items(Fold(rules2, w2, Fold(rules1, w1, [])), key)| == CountKey(rules1 + rules2, key)
  {
    TwoWordsByKey(rules1, rules2, w1, w2, key);
    KeyItemsCount(rules1, w1, key);
    KeyItemsCount(rules2, w2, key);
    CountKeyAppend(rules1, rules2, key);
  }

  /**
   * With both records present the result has the keys remote, warning and
   * default, in that order, and ten items under each.
   */
  lemma GetDeviceStatusShape(first: DeviceProperty, second: DeviceProperty)
    ensures Keys(GetDeviceStatus(Some(first), Some(second))) == [REMOTE, WARNING, DEFAULT]
    ensures |Items(GetDeviceStatus(Some(first), Some(second)), REMOTE)| == 10
    ensures |Items(GetDeviceStatus(Some(first), Some(second)), WARNING)| == 10
    ensures |Items(GetDeviceStatus(Some(first), Some(second)), DEFAULT)| == 10
  {
    var w1, w2 := StatusWord(first.value), StatusWord(second.value);
    BothWords(first, second);
    StatusKeysCycle();
    StatusMaskShape();
    TwoWordsKeys(STATUS_FIRST, STATUS_SECOND, w1, w2);
    TwoWordsCount(STATUS_FIRST, STATUS_SECOND, w1, w2, REMOTE);
    TwoWordsCount(STATUS_FIRST, STATUS_SECOND, w1, w2, WARNING);
    TwoWordsCount(STATUS_FIRST, STATUS_SECOND, w1, w2, DEFAULT);
  }

  // ---------------------------------------------------------------- the 16-bit window

  /** An integer reading is taken modulo 2^16. */
  lemma StatusWordOfInteger(x: real)
    requires IsInteger(x)
    ensures StatusWord(Num(x)) == x.Floor % 0x1_0000
  {
    TruncInteger(x);
    ModOfMod(x.Floor, 0x1_0000, 0x1_0000);
  }

  /** Two integer readings that differ by a multiple of 65536 decode identically. */
  lemma DecodeModulo(rules: seq<StatusMaskItem>, p1: DeviceProperty, p2: DeviceProperty, acc: StatusItemResult)
    requires p1.value.Num? && IsInteger(p1.value.x)
    requires p2.value.Num? && IsInteger(p2.value.x)
    requires (p1.value.x.Floor - p2.value.x.Floor) % 0x1_0000 == 0
    ensures ProcessStatusItems(rules, Some(p1), acc) == ProcessStatusItems(rules, Some(p2), acc)
  {
    StatusWordOfInteger(p1.value.x);
    StatusWordOfInteger(p2.value.x);
    ModOfShift(p1.value.x.Floor, p2.value.x.Floor, 0x1_0000);
  }

  /** Adding 65536 to an integer reading leaves its status word unchanged. */
  lemma StatusWordShift(x: real)
    requires IsInteger(x)
    ensures StatusWord(Num(x + 65536.0)) == StatusWord(Num(x))
  {
    var y := x + 65536.0;
    assert y.Floor == x.Floor + 0x1_0000;
    StatusWordOfInteger(y);
    StatusWordOfInteger(x);
    ModOfShift(y.Floor, x.Floor, 0x1_0000);
  }

  /** A 16-bit reading is its own status word. */
  lemma StatusWordOfSixteenBits(n: int)
    requires 0 <= n < 0x1_0000
    ensures StatusWord(Num(n as real)) == n
  {
    var x := n as real;
    assert IsInteger(x) && x.Floor == n;
    assert n % 0x1_0000 == n;
    StatusWordOfInteger(x);
  }

  /** A bit above the sixteenth is dropped: a 16-bit reading plus 65536 decodes as the reading itself. */
  lemma SeventeenBitsReadAsSixteen(n: int)
    requires 0 <= n < 0x1_0000
    ensures StatusWord(Num((n + 0x1_0000) as real)) == StatusWord(Num(n as real)) == n
  {
    assert (n + 0x1_0000) as real == n as real + 65536.0;
    StatusWordShift(n as real);
    StatusWordOfSixteenBits(n);
  }

  /** Bit `i` of the status word is bit `i` of the raw reading's unsigned 32-bit form, for `i < 16`. */
  lemma StatusWordBit(v: Value, i: nat)
    requires i < 16
    ensures Bit(StatusWord(v), i) == Bit(ToUint32(NumberOf(v)), i)
  {
    Pow2Values();
    BitOfMod(ToUint32(NumberOf(v)), 16, i);
  }

  /**
   * Flag `i` of the first word is labelled from bit `i` of the reading: no
   * configured bit is lost to the 16-bit window.
   */
  lemma FirstWordFlag(v: Value, i: nat)
    requires i < |STATUS_FIRST|
    ensures DecodeItem(STATUS_FIRST[i], StatusWord(v)).value ==
      StatusLabel(STATUS_FIRST[i].key, Bit(ToUint32(NumberOf(v)), i))
  {
    StatusMaskShape();
    BitAndSingleBit(i, StatusWord(v));
    StatusWordBit(v, i);
  }

  /** Flag `i` of the second word is labelled from bit `i` of the reading. */
  lemma SecondWordFlag(v: Value, i: nat)
    requires i < |STATUS_SECOND|
    ensures DecodeItem(STATUS_SECOND[i], StatusWord(v)).value ==
      StatusLabel(STATUS_SECOND[i].key, Bit(ToUint32(NumberOf(v)), i))
  {
    StatusMaskShape();
    BitAndSingleBit(i, StatusWord(v));
    StatusWordBit(v, i);
  }
}
