// The value-carrying tuning variables of the engine's tweak menu
// (Core/EngineTuning.h and their constructors in Core/EngineTuning.cpp).
// Floats are modelled as reals, int32_t as the Int32 subset type.  The
// action callback each override forwards to and the registration a
// constructor performs live elsewhere (TuningGraph models registration).
module TuningVars {
  import AlignMath

  type Int32 = x: int | -0x8000_0000 <= x < 0x8000_0000

  /** The Clamp member shared by NumVar and IntVar: the upper bound is tested first, then the lower. */
  function Clamp(val: real, lo: real, hi: real): (r: real)
    requires lo <= hi
    ensures lo <= r <= hi
    ensures lo <= val <= hi ==> r == val
    ensures val > hi ==> r == hi
    ensures val < lo ==> r == lo
  {
    if val > hi then hi else if val < lo then lo else val
  }

  /** Clamp on IntVar's integers: the same member, whose result is then one of the integer arguments. */
  function ClampInt(val: int, lo: int, hi: int): (r: int)
    requires lo <= hi
    ensures lo <= r <= hi
    ensures lo <= val <= hi ==> r == val
    ensures val > hi ==> r == hi
    ensures val < lo ==> r == lo
  {
    Clamp(val as real, lo as real, hi as real).Floor
  }

  /** Clamping a clamped value changes nothing. */
  lemma ClampIdempotent(val: real, lo: real, hi: real)
    requires lo <= hi
    ensures Clamp(Clamp(val, lo, hi), lo, hi) == Clamp(val, lo, hi)
  {
  }

  /** Clamping keeps the order of its arguments. */
  lemma ClampMonotone(a: real, b: real, lo: real, hi: real)
    requires lo <= hi && a <= b
    ensures Clamp(a, lo, hi) <= Clamp(b, lo, hi)
  {
  }

  /** While no bound is reached, IntVar's Decrement undoes its Increment. */
  lemma IntStepUndone(v: int, step: int, lo: int, hi: int)
    requires lo <= v <= hi && lo <= v + step <= hi
    ensures ClampInt(ClampInt(v + step, lo, hi) - step, lo, hi) == v
  {
  }

  /** The EnumVar clamp: negatives go to 0, values at or past the length to length - 1. */
  function EnumClamp(val: int, length: int): (r: int)
    ensures length > 0 ==> 0 <= r < length
    ensures 0 <= val < length ==> r == val
    ensures val < 0 ==> r == 0
    ensures 0 <= val && val >= length ==> r == length - 1
  {
    if val < 0 then 0 else if val >= length then length - 1 else val
  }

  /**
   * Increment of an enumeration: (v + 1) % length, which wraps the last entry
   * to the first.  The value -1 that a clamp into an empty list leaves also
   * steps to the first entry.
   */
  function EnumNext(v: int, length: int): (r: int)
    requires -1 <= v < length && length > 0
    ensures 0 <= r < length
    ensures v < length - 1 ==> r == v + 1
    ensures v == length - 1 ==> r == 0
  {
    (v + 1) % length
  }

  /**
   * Decrement of an enumeration: (v + length - 1) % length, which wraps the
   * first entry to the last; from -1 it lands on the last but one entry (0 for
   * a one-entry list, where C++'s -1 % 1 is 0 as well).
   */
  function EnumPrev(v: int, length: int): (r: int)
    requires -1 <= v < length && length > 0
    ensures 0 <= r < length
    ensures v > 0 ==> r == v - 1
    ensures v == 0 ==> r == length - 1
    ensures v == -1 ==> r == (if length >= 2 then length - 2 else 0)
  {
    (v + length - 1) % length
  }

  /** Increment and Decrement of an enumeration undo each other. */
  lemma EnumStepsInverse(v: int, length: int)
    requires 0 <= v < length
    ensures EnumPrev(EnumNext(v, length), length) == v
    ensures EnumNext(EnumPrev(v, length), length) == v
  {
  }

  /** Stepping an enumeration forward length times returns to the start. */
  function EnumAdvance(v: int, length: int, n: nat): (r: int)
    requires 0 <= v < length
    ensures 0 <= r < length
  {
    if n == 0 then v else EnumNext(EnumAdvance(v, length, n - 1), length)
  }

  lemma {:induction false} EnumAdvanceIsModulo(v: int, length: int, n: nat)
    requires 0 <= v < length
    ensures EnumAdvance(v, length, n) == (v + n) % length
  {
    if n > 0 {
      EnumAdvanceIsModulo(v, length, n - 1);
      ModuloSucc(v + n - 1, length);
    }
  }

  lemma ModuloSucc(x: nat, length: int)
    requires length > 0
    ensures ((x % length) + 1) % length == (x + 1) % length
  {
    var q := x / length;
    var m := x % length;
    AlignMath.DivModIdentity(x, length);
    if m + 1 < length {
      AlignMath.DivModUnique(x + 1, length, q, m + 1);
      AlignMath.DivModUnique(m + 1, length, 0, m + 1);
    } else {
      AlignMath.DivModUnique(x + 1, length, q + 1, 0);
    }
  }

  lemma EnumCycle(v: int, length: int)
    requires 0 <= v < length
    ensures EnumAdvance(v, length, length) == v
  {
    EnumAdvanceIsModulo(v, length, length);
    AlignMath.DivModUnique(v + length, length, 1, v);
  }

  /** A switch: Increment turns it on, Decrement off, Bang flips it. */
  class BoolVar {
    var flag: bool

    constructor (val: bool)
      ensures flag == val
    {
      flag := val;
    }

    method Assign(val: bool)
      modifies this
      ensures flag == val
    {
      flag := val;
    }

    method Increment()
      modifies this
      ensures flag
    {
      flag := true;
    }

    method Decrement()
      modifies this
      ensures !flag
    {
      flag := false;
    }

    method Bang()
      modifies this
      ensures flag == !old(flag)
    {
      flag := !flag;
    }
  }

  /** A number kept within [minValue, maxValue], stepped by stepSize. */
  class NumVar {
    var value: real
    var minValue: real
    var maxValue: real
    var stepSize: real

    ghost predicate Valid()
      reads this
    {
      minValue <= value <= maxValue
    }

    /** The constructor asserts minVal <= maxVal and clamps the initial value. */
    constructor (val: real, minVal: real, maxVal: real, step: real)
      requires minVal <= maxVal
      ensures Valid()
      ensures minValue == minVal && maxValue == maxVal && stepSize == step
      ensures value == Clamp(val, minVal, maxVal)
    {
      minValue := minVal;
      maxValue := maxVal;
      value := Clamp(val, minVal, maxVal);
      stepSize := step;
    }

    method Assign(val: real)
      requires Valid()
      modifies this`value
      ensures Valid()
      ensures value == Clamp(val, minValue, maxValue)
    {
      value := Clamp(val, minValue, maxValue);
    }

    method Increment()
      requires Valid()
      modifies this`value
      ensures Valid()
      ensures value == Clamp(old(value) + stepSize, minValue, maxValue)
    {
      value := Clamp(value + stepSize, minValue, maxValue);
    }

    method Decrement()
      requires Valid()
      modifies this`value
      ensures Valid()
      ensures value == Clamp(old(value) - stepSize, minValue, maxValue)
    {
      value := Clamp(value - stepSize, minValue, maxValue);
    }
  }

  /**
   * An int32_t kept within [minValue, maxValue].  value + stepSize is
   * evaluated in int32_t, where overflow is undefined, so the steps
   * require the sum to fit.
   */
  class IntVar {
    var value: Int32
    var minValue: Int32
    var maxValue: Int32
    var stepSize: Int32

    ghost predicate Valid()
      reads this
    {
      minValue <= value <= maxValue
    }

    /** The constructor asserts minVal <= maxVal and clamps the initial value. */
    constructor (val: Int32, minVal: Int32, maxVal: Int32, step: Int32)
      requires minVal <= maxVal
      ensures Valid()
      ensures minValue == minVal && maxValue == maxVal && stepSize == step
      ensures value == ClampInt(val, minVal, maxVal)
    {
      minValue := minVal;
      maxValue := maxVal;
      value := ClampInt(val, minVal, maxVal);
      stepSize := step;
    }

    method Assign(val: Int32)
      requires Valid()
      modifies this`value
      ensures Valid()
      ensures value == ClampInt(val, minValue, maxValue)
    {
      value := ClampInt(val, minValue, maxValue);
    }

    method Increment()
      requires Valid()
      requires -0x8000_0000 <= value + stepSize < 0x8000_0000
      modifies this`value
      ensures Valid()
      ensures value == ClampInt(old(value) + stepSize, minValue, maxValue)
    {
      value := ClampInt(value + stepSize, minValue, maxValue);
    }

    method Decrement()
      requires Valid()
      requires -0x8000_0000 <= value - stepSize < 0x8000_0000
      modifies this`value
      ensures Valid()
      ensures value == ClampInt(old(value) - stepSize, minValue, maxValue)
    {
      value := ClampInt(value - stepSize, minValue, maxValue);
    }
  }

  /** A choice among a fixed list of labels. */
  class EnumVar {
    var value: Int32
    var enumLength: Int32

    ghost predicate Valid()
      reads this
    {
      0 <= value < enumLength
    }

    /** The constructor asserts listLength > 0 and clamps the initial value. */
    constructor (initialVal: Int32, listLength: Int32)
      requires listLength > 0
      ensures Valid()
      ensures enumLength == listLength && value == EnumClamp(initialVal, listLength)
    {
      enumLength := listLength;
      value := EnumClamp(initialVal, listLength);
    }

    method Assign(val: Int32)
      requires Valid()
      modifies this`value
      ensures Valid()
      ensures value == EnumClamp(val, enumLength)
    {
      value := EnumClamp(val, enumLength);
    }

    method Increment()
      requires Valid()
      modifies this`value
      ensures Valid()
      ensures value == EnumNext(old(value), enumLength)
    {
      value := EnumNext(value, enumLength);
    }

    /** Decrement computes value + length - 1 in int32_t, so that sum must not overflow. */
    method Decrement()
      requires Valid() && value + enumLength - 1 < 0x8000_0000
      modifies this`value
      ensures Valid()
      ensures value == EnumPrev(old(value), enumLength)
    {
      value := EnumPrev(value, enumLength);
    }

    /** SetListLength stores the new length and re-clamps the value; a positive length keeps Valid. */
    method SetListLength(listLength: Int32)
      requires listLength > -0x8000_0000  // length - 1 must not overflow int32_t
      modifies this
      ensures enumLength == listLength
      ensures value == EnumClamp(old(value), listLength)
      ensures listLength > 0 ==> Valid()
    {
      enumLength := listLength;
      value := EnumClamp(value, listLength);
    }
  }

  /** An enumeration whose labels are appended at run time. */
  class DynamicEnumVar {
    var value: Int32
    var enumCount: Int32
    var labels: seq<string>

    /**
     * The count matches the labels and the value indexes them, except that an
     * assignment while the list is empty leaves -1 (Clamp's count - 1) or 0.
     */
    ghost predicate Valid()
      reads this
    {
      && enumCount == |labels| && -1 <= value
      && (enumCount == 0 ==> value <= 0) && (enumCount > 0 ==> value < enumCount)
    }

    /** The constructor starts with no labels and value 0. */
    constructor ()
      ensures Valid() && enumCount == 0 && value == 0 && labels == []
    {
      enumCount := 0;
      value := 0;
      labels := [];
    }

    /** AddEnum appends one label and counts it; the count stays within int32_t. */
    method AddEnum(enumLabel: string)
      requires Valid() && enumCount < 0x7FFF_FFFF
      modifies this
      ensures Valid()
      ensures labels == old(labels) + [enumLabel] && enumCount == old(enumCount) + 1 && value == old(value)
    {
      labels := labels + [enumLabel];
      enumCount := enumCount + 1;
    }

    /** Increment divides by the count, so it needs at least one label. */
    method Increment()
      requires Valid() && enumCount > 0
      modifies this`value
      ensures Valid()
      ensures value == EnumNext(old(value), enumCount)
    {
      value := EnumNext(value, enumCount);
    }

    /** Decrement computes value + count - 1 in int32_t, so that sum must not overflow. */
    method Decrement()
      requires Valid() && enumCount > 0 && value + enumCount - 1 < 0x8000_0000
      modifies this`value
      ensures Valid()
      ensures value == EnumPrev(old(value), enumCount)
    {
      value := EnumPrev(value, enumCount);
    }

    /** operator= clamps into the list; with no labels that stores 0 for a negative value and -1 otherwise. */
    method Assign(val: Int32)
      requires Valid()
      modifies this`value
      ensures Valid()
      ensures value == EnumClamp(val, enumCount)
      ensures enumCount == 0 ==> value == (if val < 0 then 0 else -1)
    {
      value := EnumClamp(val, enumCount);
    }
  }
}
