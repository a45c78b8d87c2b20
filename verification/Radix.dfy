/** Positional notation, most significant digit first. */
module Radix {
  import opened Arithmetic

  function Value(base: nat, digits: seq<nat>): nat {
    if digits == [] then 0 else Value(base, digits[..|digits| - 1]) * base + digits[|digits| - 1]
  }

  function Digits(base: nat, value: nat, width: nat): (digits: seq<nat>)
    requires base > 0
    ensures |digits| == width && forall i :: 0 <= i < width ==> digits[i] < base
  {
    QuotientBound(value, base);
    if width == 0 then [] else Digits(base, value / base, width - 1) + [value % base]
  }

  lemma {:induction false} DigitsOfValue(base: nat, digits: seq<nat>)
    requires base > 0 && forall i :: 0 <= i < |digits| ==> digits[i] < base
    ensures Digits(base, Value(base, digits), |digits|) == digits
    decreases |digits|
  {
    if digits != [] {
      var front, last := digits[..|digits| - 1], digits[|digits| - 1];
      DigitsOfValue(base, front);
      UniqueRemainder(Value(base, digits), base, Value(base, front), last);
    }
  }

  function Power(base: nat, n: nat): nat {
    if n == 0 then 1 else Power(base, n - 1) * base
  }

  lemma {:induction false} PowerIsPow2(base: nat, width: nat, n: nat)
    requires base == Pow2(width)
    ensures n * width >= 0 && Power(base, n) == Pow2(n * width)
    decreases n
  {
    if n > 0 {
      PowerIsPow2(base, width, n - 1);
      assert Power(base, n) == Power(base, n - 1) * base;
      hide Pow2;
      Distributes(n - 1, 1, width);
      Monotone(0, n - 1, width);
      Pow2Sum((n - 1) * width, width);
    }
  }

  lemma {:induction false} ValueBound(base: nat, digits: seq<nat>)
    requires base > 0 && forall i :: 0 <= i < |digits| ==> digits[i] < base
    ensures Value(base, digits) < Power(base, |digits|)
    decreases |digits|
  {
    if digits != [] {
      var front := digits[..|digits| - 1];
      var value, power := Value(base, front), Power(base, |front|);
      ValueBound(base, front);
      Monotone(value, power - 1, base);
      Distributes(power, 1, base);
    }
  }

  lemma {:induction false} ValueOfDigits(base: nat, value: nat, width: nat)
    requires base > 0 && value < Power(base, width)
    ensures Value(base, Digits(base, value, width)) == value
    decreases width
  {
    if width > 0 {
      var q, d := value / base, Digits(base, value, width);
      Division(value, base);
      if q >= Power(base, width - 1) {
        Monotone(Power(base, width - 1), q, base);
      }
      ValueOfDigits(base, q, width - 1);
      assert d[..width - 1] == Digits(base, q, width - 1);
    }
  }

  lemma ValueAppend(base: nat, digits: seq<nat>, d: nat)
    ensures Value(base, digits + [d]) == Value(base, digits) * base + d
  {
    assert (digits + [d])[..|digits|] == digits;
  }
}
