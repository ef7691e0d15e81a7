/** The mod-10 "double-add-double" check of ISO/IEC 7812-1, Annex B (the Luhn
    formula), as `luhnCheck` in api/luhn.js computes it: strip non-digits, walk
    the digits from the right, double every second one (subtracting 9 from a
    doubled value over 9), and accept when the sum is a multiple of 10. */
module Luhn {
  import opened Digits

  /** Whether the digit at a given distance from the right end is doubled: the
      rightmost digit (distance 0) is kept, and each step to the left switches
      between kept and doubled. */
  predicate IsDoubledPosition(distanceFromRight: nat) {
    if distanceFromRight == 0 then false else !IsDoubledPosition(distanceFromRight - 1)
  }

  /** The doubled digits are exactly those at an odd distance from the right end. */
  lemma {:induction false} DoubledIffOdd(distanceFromRight: nat)
    ensures IsDoubledPosition(distanceFromRight) <==> distanceFromRight % 2 == 1
  {
    if distanceFromRight > 0 {
      DoubledIffOdd(distanceFromRight - 1);
    }
  }

  /** What one digit adds to the sum. A doubled digit contributes the sum of the
      decimal digits of its double, which is why its value stays below 10. */
  function Contribution(d: nat, doubled: bool): (r: nat)
    requires d <= 9
    ensures r <= 9
    ensures !doubled ==> r == d
  {
    if doubled then (if 2 * d > 9 then 2 * d - 9 else 2 * d) else d
  }

  /** "Double-add-double": subtracting 9 from a doubled digit over 9 is the
      same as adding the two decimal digits of the double. */
  lemma ContributionIsDigitSum(d: nat)
    requires d <= 9
    ensures Contribution(d, true) == (2 * d) / 10 + (2 * d) % 10
  {
    if 2 * d > 9 {
      assert (2 * d) / 10 == 1 && (2 * d) % 10 == 2 * d - 10;
    } else {
      assert (2 * d) / 10 == 0 && (2 * d) % 10 == 2 * d;
    }
  }

  /** For a fixed position kind, different digits give different contributions:
      doubling-and-reducing is a bijection on 0..9. */
  lemma ContributionInjective(d: nat, e: nat, doubled: bool)
    requires d <= 9 && e <= 9 && d != e
    ensures Contribution(d, doubled) != Contribution(e, doubled)
  {
  }

  /** The checksum sum of an all-digit string, each digit weighted by its
      distance from the right end. */
  function LuhnSum(ds: string): (sum: nat)
    requires AllDigits(ds)
  {
    if ds == [] then 0
    else Contribution(DigitValue(ds[0]), IsDoubledPosition(|ds| - 1)) + LuhnSum(ds[1..])
  }

  /** No digit adds more than 9, so the sum of n digits is at most 9n. */
  lemma {:induction false} LuhnSumBound(ds: string)
    requires AllDigits(ds)
    ensures LuhnSum(ds) <= 9 * |ds|
  {
    if ds != [] {
      LuhnSumBound(ds[1..]);
    }
  }

  /** The verdict `luhnCheck` returns for a raw string. */
  predicate LuhnValid(s: string) {
    LuhnSum(DigitsOf(s)) % 10 == 0
  }

  /** api/luhn.js:6-28. The loop keeps `sum` equal to the checksum sum of the
      digits already visited and `isEven` equal to "the next digit is at an odd
      distance from the right". */
  method LuhnCheck(cardNumber: string) returns (valid: bool)
    ensures valid == LuhnValid(cardNumber)
  {
    var sum: int := 0;
    var isEven := false;
    var digits := DigitsOf(cardNumber);
    var i := |digits| - 1;
    while i >= 0
      invariant -1 <= i < |digits|
      invariant sum == LuhnSum(digits[i + 1..])
      invariant isEven == IsDoubledPosition(|digits| - 1 - i)
    {
      var digit: int := DigitValue(digits[i]);
      if isEven {
        digit := digit * 2;
        if digit > 9 {
          digit := digit - 9;
        }
      }
      WalkStep(digits, i, isEven, sum, digit);
      sum := sum + digit;
      isEven := !isEven;
      i := i - 1;
    }
    assert digits[0..] == digits;
    assert sum == LuhnSum(DigitsOf(cardNumber));
    valid := sum % 10 == 0;
  }

  /** One step of the right-to-left walk: the suffix starting at `i` adds the
      contribution of digit `i`, weighted by its distance from the right end. */
  lemma LuhnSumStep(ds: string, i: nat)
    requires AllDigits(ds) && i < |ds|
    ensures LuhnSum(ds[i..])
         == Contribution(DigitValue(ds[i]), IsDoubledPosition(|ds| - 1 - i)) + LuhnSum(ds[i + 1..])
  {
    assert ds[i..][1..] == ds[i + 1..];
  }

  /** The loop's step, stated in its own terms: with `isEven` the kind of the
      position of digit `i`, that digit's contribution extends the sum over the
      digits after it to the sum from `i`, and the next digit has the other kind. */
  lemma WalkStep(ds: string, i: nat, isEven: bool, sum: int, digit: int)
    requires AllDigits(ds) && i < |ds|
    requires isEven == IsDoubledPosition(|ds| - 1 - i)
    requires sum == LuhnSum(ds[i + 1..])
    requires digit == Contribution(DigitValue(ds[i]), isEven)
    ensures sum + digit == LuhnSum(ds[i..])
    ensures !isEven == IsDoubledPosition(|ds| - 1 - (i - 1))
  {
    LuhnSumStep(ds, i);
  }

  /** Separators do not matter: the verdict is that of the stripped string, so
      two strings with the same digits get the same verdict. */
  lemma StripFirst(s: string, t: string)
    requires DigitsOf(s) == DigitsOf(t)
    ensures LuhnValid(s) == LuhnValid(DigitsOf(s))
    ensures LuhnValid(s) == LuhnValid(t)
  {
  }

  /** A string without any digit passes (its sum is 0). */
  lemma NoDigitsPasses(s: string)
    requires forall k :: 0 <= k < |s| ==> !IsDigit(s[k])
    ensures LuhnValid(s)
  {
    if DigitsOf(s) != [] {
      DigitsOfMembers(s, DigitsOf(s)[0]);
    }
  }

  /** Changing the digit at index `i` changes the sum by the change in that one
      digit's contribution, weighted by its distance from the right end. */
  lemma {:induction false} SubstitutionDelta(ds: string, i: nat, c: char)
    requires AllDigits(ds) && i < |ds| && IsDigit(c)
    ensures AllDigits(ds[i := c])
    ensures LuhnSum(ds[i := c]) - LuhnSum(ds)
         == Contribution(DigitValue(c), IsDoubledPosition(|ds| - 1 - i))
          - Contribution(DigitValue(ds[i]), IsDoubledPosition(|ds| - 1 - i))
  {
    var ds' := ds[i := c];
    UpdateKeepsAllDigits(ds, i, c);
    var tail, tail' := ds[1..], ds'[1..];
    var p := IsDoubledPosition(|ds| - 1 - i);
    var delta := Contribution(DigitValue(c), p) - Contribution(DigitValue(ds[i]), p);
    LuhnSumCons(ds);
    LuhnSumCons(ds');
    if i == 0 {
      assert tail' == tail;
    } else {
      assert tail' == tail[i - 1 := c];
      assert tail[i - 1] == ds[i] && |tail| - 1 - (i - 1) == |ds| - 1 - i;
      SubstitutionDelta(tail, i - 1, c);
      assert LuhnSum(tail') - LuhnSum(tail) == delta;
      assert ds'[0] == ds[0];
    }
  }

  /** The first digit's contribution plus the sum over the rest. */
  lemma LuhnSumCons(ds: string)
    requires AllDigits(ds) && ds != []
    ensures LuhnSum(ds) == Contribution(DigitValue(ds[0]), IsDoubledPosition(|ds| - 1)) + LuhnSum(ds[1..])
  {
  }

  /** Any single-digit substitution in an all-digit string that passes makes it fail. */
  lemma SingleDigitErrorDetected(ds: string, i: nat, c: char)
    requires AllDigits(ds) && i < |ds| && IsDigit(c) && c != ds[i]
    requires LuhnSum(ds) % 10 == 0
    ensures AllDigits(ds[i := c])
    ensures LuhnSum(ds[i := c]) % 10 != 0
  {
    var doubled := IsDoubledPosition(|ds| - 1 - i);
    SubstitutionDelta(ds, i, c);
    DigitValueRoundTrip(c, ds[i]);
    ContributionInjective(DigitValue(c), DigitValue(ds[i]), doubled);
    ShiftBreaksMultipleOfTen(LuhnSum(ds), LuhnSum(ds[i := c]) - LuhnSum(ds));
  }

  /** Adding a nonzero amount smaller than 10 in magnitude to a multiple of 10
      never gives a multiple of 10. */
  lemma ShiftBreaksMultipleOfTen(a: int, x: int)
    requires a % 10 == 0 && x != 0 && -10 < x < 10
    ensures (a + x) % 10 != 0
  {
    var q := a / 10;
    assert a == 10 * q;
    if x > 0 {
      assert a + x == 10 * q + x;
    } else {
      assert a + x == 10 * (q - 1) + (10 + x);
    }
  }

  /** The same for a raw string with separators: changing one of its digit
      characters to another digit turns a passing number into a failing one. */
  lemma SingleDigitErrorDetectedRaw(s: string, i: nat, c: char)
    requires i < |s| && IsDigit(s[i]) && IsDigit(c) && c != s[i]
    requires LuhnValid(s)
    ensures !LuhnValid(s[i := c])
  {
    DigitsOfUpdate(s, i, c);
    SingleDigitErrorDetected(DigitsOf(s), |DigitsOf(s[..i])|, c);
  }
}
