/**
 * The switch control word: `getSwitchList`, `isSwitchOn` and `toggleSwitch`.
 * Each of the nine switches owns one bit of the word. For every switch but
 * the water pump a SET bit means the switch is OFF; the water pump reads the
 * other way round.
 */
module Switches {
  import opened Wrappers
  import opened JsOps
  import opened DeviceTypes
  import opened Constants

  const ON: string := "开启 ✅"
  const OFF: string := "关闭"

  /** `isSwitchOn(switchNum, bitMask, isWaterPump)` */
  function IsSwitchOn(switchNum: real, bitMask: real, isWaterPump: bool): bool
  {
    var bitSet := BitAnd(bitMask, switchNum) != 0;
    if isWaterPump then bitSet else !bitSet
  }

  /** `BitAnd` reads its operands only through their unsigned 32-bit forms. */
  lemma BitAndOfUint32(x: real, y: real)
    ensures BitAnd(x, y) == BitAnd(x, ToUint32(y) as real)
  {
    ToUint32Small(ToUint32(y));
  }

  /**
   * A single-bit mask below bit 31: the switch is on exactly when bit `i` of
   * the control word is set for the water pump, clear for any other switch.
   */
  lemma IsSwitchOnBit(switchNum: real, i: nat, isWaterPump: bool)
    requires i < 31
    ensures IsSwitchOn(switchNum, Pow2(i) as real, isWaterPump) <==> Bit(ToUint32(switchNum), i) == isWaterPump
  {
    BitAndOfUint32(Pow2(i) as real, switchNum);
    BitAndSingleBit(i, ToUint32(switchNum));
  }

  /** One entry of the `SWITCH_MASK.map(...)`: code and name copied, the label from the masked bit. */
  function SwitchItem(item: SwitchMaskItem, value: real): SwitchListItem
  {
    SwitchListItem(item.code, item.name,
      if item.code != WATER_PUMP then
        (if BitAnd(item.bitMask as real, value) != 0 then OFF else ON)
      else
        (if BitAnd(item.bitMask as real, value) != 0 then ON else OFF))
  }

  /** `mask.map(...)` over the control word `value`. */
  function SwitchItems(mask: seq<SwitchMaskItem>, value: real): (r: seq<SwitchListItem>)
    ensures |r| == |mask|
    ensures forall i :: 0 <= i < |mask| ==> r[i].code == mask[i].code && r[i].name == mask[i].name
    ensures forall i :: 0 <= i < |mask| ==>
      r[i].value == (if IsSwitchOn(value, mask[i].bitMask as real, mask[i].code == WATER_PUMP) then ON else OFF)
  {
    if mask == [] then []
    else [SwitchItem(mask[0], value)] + SwitchItems(mask[1..], value)
  }

  /** `getSwitchList`: nothing for a missing or falsy control word, otherwise one item per switch. */
  function GetSwitchList(switchNum: Option<DeviceProperty>): (r: seq<SwitchListItem>)
    ensures r == [] <==> switchNum.None? || !IsTruthy(switchNum.value.value)
  {
    if switchNum.None? || !IsTruthy(switchNum.value.value) then []
    else SwitchItems(SWITCH_MASK, NumberOf(switchNum.value.value))
  }

  /**
   * With a truthy control word the list has the nine switches in table order,
   * and switch `i` reads on exactly when bit `i` of the word is set for the
   * water pump (bit 8) and clear for the others.
   */
  lemma GetSwitchListBits(p: DeviceProperty, i: nat)
    requires IsTruthy(p.value) && i < 9
    ensures |GetSwitchList(Some(p))| == 9
    ensures GetSwitchList(Some(p))[i].code == SWITCH_MASK[i].code
    ensures GetSwitchList(Some(p))[i].name == SWITCH_MASK[i].name
    ensures GetSwitchList(Some(p))[i].value == ON <==> Bit(ToUint32(NumberOf(p.value)), i) == (i == 8)
    ensures GetSwitchList(Some(p))[i].value == OFF <==> Bit(ToUint32(NumberOf(p.value)), i) != (i == 8)
  {
    SwitchMaskShape();
    IsSwitchOnBit(NumberOf(p.value), i, i == 8);
  }

  /** `toggleSwitch`: `currentValue ^ bitMask`. */
  function ToggleSwitch(currentValue: real, bitMask: real): int
  {
    BitXor(currentValue, bitMask)
  }

  /** The unsigned form of a toggled word is the exclusive or of the unsigned forms. */
  lemma ToggleUint32(currentValue: real, bitMask: real)
    ensures ToUint32(ToggleSwitch(currentValue, bitMask) as real) == XorNat(ToUint32(currentValue), ToUint32(bitMask))
  {
    Pow2Values();
    XorBelow(ToUint32(currentValue), ToUint32(bitMask), 32);
    Signed32RoundTrip(XorNat(ToUint32(currentValue), ToUint32(bitMask)));
  }

  /** Toggling flips exactly the bits of the mask. */
  lemma ToggleBits(currentValue: real, bitMask: real, i: nat)
    ensures Bit(ToUint32(ToggleSwitch(currentValue, bitMask) as real), i) ==
      (Bit(ToUint32(currentValue), i) != Bit(ToUint32(bitMask), i))
  {
    ToggleUint32(currentValue, bitMask);
    BitOfXor(ToUint32(currentValue), ToUint32(bitMask), i);
  }

  /** Toggling twice with the same mask restores any 32-bit signed control word. */
  lemma ToggleTwice(currentValue: real, bitMask: real)
    requires IsInteger(currentValue) && -(TWO_31 as real) <= currentValue < TWO_31 as real
    ensures ToggleSwitch(ToggleSwitch(currentValue, bitMask) as real, bitMask) as real == currentValue
  {
    ToggleUint32(currentValue, bitMask);
    XorTwice(ToUint32(currentValue), ToUint32(bitMask));
    Signed32OfInt32(currentValue);
  }

  /** A power of two has exactly one bit. */
  lemma {:induction false} BitOfPow2(i: nat, j: nat)
    ensures Bit(Pow2(i), j) <==> i == j
    decreases i
  {
    if i == 0 {
      if j > 0 {
        ZeroHasNoBits(j - 1);
      }
    } else if j > 0 {
      BitOfPow2(i - 1, j - 1);
    }
  }

  /** Toggling switch `i`'s mask flips switch `i` and leaves every other switch as it was. */
  lemma ToggleFlipsOneSwitch(switchNum: real, i: nat, j: nat)
    requires i < 9 && j < 9
    ensures IsSwitchOn(ToggleSwitch(switchNum, SWITCH_MASK[i].bitMask as real) as real,
                       SWITCH_MASK[j].bitMask as real, SWITCH_MASK[j].code == WATER_PUMP) <==>
            (IsSwitchOn(switchNum, SWITCH_MASK[j].bitMask as real, SWITCH_MASK[j].code == WATER_PUMP) != (i == j))
  {
    SwitchMaskShape();
    var toggled := ToggleSwitch(switchNum, Pow2(i) as real) as real;
    var wp := SWITCH_MASK[j].code == WATER_PUMP;
    IsSwitchOnBit(toggled, j, wp);
    IsSwitchOnBit(switchNum, j, wp);
    ToggleBits(switchNum, Pow2(i) as real, j);
    Pow2BelowTwo32(i);
    ToUint32Small(Pow2(i));
    BitOfPow2(i, j);
  }
}
