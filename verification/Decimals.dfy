/** Decimal rendering of integers, as the programs format counters and seeds. */
module Decimals {

  const DIGITS: string := "0123456789"

  predicate IsDigit(c: char) {
    '0' <= c <= '9'
  }

  function DigitValue(c: char): nat {
    if IsDigit(c) then c as int - '0' as int else 0
  }

  // Reading a digit string back, most significant digit first.
  ghost function Value(s: string): nat {
    if s == "" then 0 else 10 * Value(s[..|s| - 1]) + DigitValue(s[|s| - 1])
  }

  function Decimal(n: nat): (s: string)
    ensures |s| > 0
    ensures forall c :: c in s ==> IsDigit(c)
    ensures Value(s) == n && (n > 0 ==> s[0] != '0') && (n == 0 ==> s == "0")
  {
    if n < 10 then
      [DIGITS[n]]
    else
      var front, last := Decimal(n / 10), DIGITS[n % 10];
      assert (front + [last])[..|front|] == front;
      front + [last]
  }

  function Integer(i: int): string {
    if i < 0 then "-" + Decimal(-i) else Decimal(i)
  }

  lemma DecimalInjective(m: nat, n: nat)
    requires Decimal(m) == Decimal(n)
    ensures m == n
  {
    assert Value(Decimal(m)) == Value(Decimal(n));
  }

  // A sign exactly in front of negative numbers, and the digits of the magnitude.
  lemma IntegerReads(i: int)
    ensures i < 0 ==> Integer(i)[0] == '-' && Value(Integer(i)[1..]) == -i && Integer(i)[1] != '0'
    ensures i > 0 ==> Value(Integer(i)) == i && Integer(i)[0] != '0'
    ensures i == 0 ==> Integer(i) == "0"
  {
    if i < 0 {
      assert Integer(i)[1..] == Decimal(-i);
    }
  }

  lemma IntegerInjective(i: int, j: int)
    requires Integer(i) == Integer(j)
    ensures i == j
  {
    assert forall n: nat :: Decimal(n)[0] in Decimal(n);
    if i < 0 && j < 0 {
      assert Integer(i)[1..] == Decimal(-i) && Integer(j)[1..] == Decimal(-j);
      DecimalInjective(-i, -j);
    } else if i >= 0 && j >= 0 {
      DecimalInjective(i, j);
    }
  }
}
