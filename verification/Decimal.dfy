/** Strings of decimal digits and the numbers they denote. */
module Decimal {
  predicate IsDigit(c: char) {
    '0' <= c <= '9'
  }

  predicate AllDigits(text: string) {
    forall c <- text :: IsDigit(c)
  }

  function DigitValue(c: char): nat {
    if IsDigit(c) then c as int - '0' as int else 0
  }

  /** The number a string of digits denotes. */
  function Value(digits: string): nat {
    if digits == [] then 0 else 10 * Value(digits[..|digits| - 1]) + DigitValue(digits[|digits| - 1])
  }

  function Power10(n: nat): nat {
    if n == 0 then 1 else 10 * Power10(n - 1)
  }

  lemma {:induction false} PowerPositive(n: nat)
    ensures Power10(n) > 0
  {
    if n > 0 {
      PowerPositive(n - 1);
    }
  }

  lemma {:induction false} ValueConcat(left: string, right: string)
    ensures Value(left + right) == Value(left) * Power10(|right|) + Value(right)
  {
    if right == [] {
      assert left + right == left;
    } else {
      var fewer := right[..|right| - 1];
      ValueConcat(left, fewer);
      assert (left + right)[..|left + right| - 1] == left + fewer;
      assert Value(left) * Power10(|right|) == 10 * (Value(left) * Power10(|fewer|));
    }
  }

  lemma {:induction false} PowerAdds(m: nat, n: nat)
    ensures Power10(m + n) == Power10(m) * Power10(n)
  {
    if n > 0 {
      PowerAdds(m, n - 1);
      assert Power10(m) * Power10(n) == 10 * (Power10(m) * Power10(n - 1));
    }
  }

  function Zeros(n: nat): string {
    if n == 0 then [] else Zeros(n - 1) + "0"
  }

  lemma {:induction false} ZerosAreZero(n: nat)
    ensures |Zeros(n)| == n && Value(Zeros(n)) == 0
  {
    if n > 0 {
      ZerosAreZero(n - 1);
      assert Zeros(n)[..n - 1] == Zeros(n - 1);
    }
  }

  /** The decimal digits of a number. */
  function Digits(n: nat): (digits: string)
    ensures digits != [] && AllDigits(digits)
  {
    var last := ['0' + (n % 10) as char];
    if n < 10 then last else Digits(n / 10) + last
  }

  lemma {:induction false} DigitsBound(n: nat, k: nat)
    requires 1 <= k && n < Power10(k)
    ensures |Digits(n)| <= k
  {
    if n >= 10 {
      assert Power10(1) == 10 * Power10(0);
      DigitsBound(n / 10, k - 1);
    }
  }

  /** The digits of a number, with zeros in front up to a width. */
  function Padded(n: nat, width: nat): string {
    Zeros(if |Digits(n)| < width then width - |Digits(n)| else 0) + Digits(n)
  }

  lemma {:induction false} ValueOfDigits(n: nat)
    ensures Value(Digits(n)) == n
  {
    var last := ['0' + (n % 10) as char];
    assert DigitValue(last[0]) == n % 10;
    if n < 10 {
      assert last[..0] == [];
    } else {
      ValueOfDigits(n / 10);
      assert Digits(n)[..|Digits(n)| - 1] == Digits(n / 10);
    }
  }

  lemma {:induction false} ZerosAreDigits(n: nat)
    ensures AllDigits(Zeros(n))
  {
    if n > 0 {
      ZerosAreDigits(n - 1);
    }
  }

  /** Zeros in front change nothing. */
  lemma ValueWithZeros(zeros: nat, digits: string)
    ensures Value(Zeros(zeros) + digits) == Value(digits)
  {
    ZerosAreZero(zeros);
    ValueConcat(Zeros(zeros), digits);
    ZeroTimes(Power10(|digits|));
  }

  lemma ZeroTimes(factor: nat)
    ensures 0 * factor == 0
  {
  }

  lemma ValueOfPadded(n: nat, width: nat)
    ensures AllDigits(Padded(n, width)) && Padded(n, width) != [] && Value(Padded(n, width)) == n
  {
    var zeros := if |Digits(n)| < width then width - |Digits(n)| else 0;
    ZerosAreDigits(zeros);
    ValueWithZeros(zeros, Digits(n));
    ValueOfDigits(n);
  }

  /** Padding fills up to the width and never cuts. */
  lemma PaddedLength(n: nat, width: nat)
    ensures |Padded(n, width)| == if |Digits(n)| < width then width else |Digits(n)|
  {
    ZerosAreZero(if |Digits(n)| < width then width - |Digits(n)| else 0);
  }

  /** The digits of a number have no zero in front, unless it is zero. */
  lemma {:induction false} DigitsAreShortest(n: nat)
    ensures n > 0 ==> Digits(n)[0] != '0'
    ensures n == 0 ==> Digits(n) == "0"
  {
    if n >= 10 {
      DigitsAreShortest(n / 10);
    }
  }
}
