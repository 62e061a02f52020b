/** Decimal numerals: how `%u` prints them and how `atoi` reads their digits. */
module Decimals {
  predicate IsDigit(c: char) {
    '0' <= c <= '9'
  }

  /** The number that the digits at the start of `s` continue. */
  function Digits(s: string, value: nat): nat
    decreases |s|
  {
    if s == [] || !IsDigit(s[0]) then value else Digits(s[1..], 10 * value + (s[0] as int - '0' as int))
  }

  function DigitCount(n: nat): (k: nat)
    ensures k > 0
  {
    if n < 10 then 1 else DigitCount(n / 10) + 1
  }

  function DecimalDigits(n: nat): (s: string)
    ensures |s| == DigitCount(n) && forall i :: 0 <= i < |s| ==> IsDigit(s[i])
  {
    (if n < 10 then "" else DecimalDigits(n / 10)) + [(n % 10 + '0' as int) as char]
  }

  lemma {:induction false} DigitsSnoc(s: string, c: char, value: nat)
    requires (forall i :: 0 <= i < |s| ==> IsDigit(s[i])) && IsDigit(c)
    ensures Digits(s + [c], value) == 10 * Digits(s, value) + (c as int - '0' as int)
    decreases |s|
  {
    if s == [] {
      assert Digits((s + [c])[1..], c as int - '0' as int + 10 * value) == c as int - '0' as int + 10 * value;
    } else {
      assert (s + [c])[1..] == s[1..] + [c];
      DigitsSnoc(s[1..], c, 10 * value + (s[0] as int - '0' as int));
    }
  }

  lemma {:induction false} DigitsOfDecimal(n: nat)
    ensures Digits(DecimalDigits(n), 0) == n
  {
    var init, c := if n < 10 then "" else DecimalDigits(n / 10), (n % 10 + '0' as int) as char;
    if n >= 10 {
      DigitsOfDecimal(n / 10);
    }
    DigitsSnoc(init, c, 0);
  }

  /** Five digits are enough for 16 bits. */
  lemma DigitCountIs(n: nat)
    requires n < 0x1_0000
    ensures DigitCount(n) ==
            if n < 10 then 1 else if n < 100 then 2 else if n < 1000 then 3 else if n < 10000 then 4 else 5
  {
    assert DigitCount(n) == if n < 10 then 1 else DigitCount(n / 10) + 1;
    assert DigitCount(n / 10) == if n < 100 then 1 else DigitCount(n / 100) + 1;
    assert DigitCount(n / 100) == if n < 1000 then 1 else DigitCount(n / 1000) + 1;
    assert DigitCount(n / 1000) == if n < 10000 then 1 else DigitCount(n / 10000) + 1;
  }
}
