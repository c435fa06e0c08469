/**
 * Decimal digit strings: their value, and `String(n)` for integers, which the
 * application uses to persist device ids and to render clock minutes.
 */
module Decimal {
  import opened Text

  predicate AllDigits(s: string) {
    forall i :: 0 <= i < |s| ==> IsDigit(s[i])
  }

  function DigitValue(c: char): (d: nat)
    requires IsDigit(c)
    ensures d < 10
  {
    c as int - '0' as int
  }

  function DigitChar(d: nat): (c: char)
    requires d < 10
    ensures IsDigit(c) && DigitValue(c) == d
  {
    ('0' as int + d) as char
  }

  /** The value of a digit string, most significant digit first; "" is 0. */
  function DigitsValue(s: string): nat
    requires AllDigits(s)
    decreases |s|
  {
    if |s| == 0 then 0 else DigitsValue(s[..|s| - 1]) * 10 + DigitValue(s[|s| - 1])
  }

  function Pow10(k: nat): (p: nat)
    ensures p >= 1
  {
    if k == 0 then 1 else 10 * Pow10(k - 1)
  }

  /** A digit string without superfluous leading zeros. */
  predicate Canonical(s: string) {
    |s| >= 1 && AllDigits(s) && (s[0] != '0' || |s| == 1)
  }

  /** `String(n)` for a natural number: its shortest decimal spelling. */
  function NatToString(n: nat): (r: string)
    ensures Canonical(r)
    ensures n < 10 ==> |r| == 1
    decreases n
  {
    if n < 10 then [DigitChar(n)]
    else
      var hi := NatToString(n / 10);
      hi + [DigitChar(n % 10)]
  }

  /** Reading back what `NatToString` wrote gives the number. */
  lemma {:induction false} NatToStringValue(n: nat)
    ensures DigitsValue(NatToString(n)) == n
    decreases n
  {
    if n >= 10 {
      NatToStringValue(n / 10);
      var r := NatToString(n);
      assert r[..|r| - 1] == NatToString(n / 10);
    }
  }

  /** A canonical digit string is exactly the spelling of its value. */
  lemma {:induction false} CanonicalSpelling(s: string)
    requires Canonical(s)
    ensures NatToString(DigitsValue(s)) == s
    decreases |s|
  {
    if |s| == 1 {
    } else {
      var hi := s[..|s| - 1];
      assert hi[0] == s[0];
      CanonicalLarge(s);
      CanonicalSpelling(hi);
      var v := DigitsValue(s);
      assert v / 10 == DigitsValue(hi) && v % 10 == DigitValue(s[|s| - 1]);
      assert s == hi + [s[|s| - 1]];
    }
  }

  /** A canonical spelling of two or more digits denotes at least 10. */
  lemma {:induction false} CanonicalLarge(s: string)
    requires Canonical(s) && |s| >= 2
    ensures DigitsValue(s) >= 10
    decreases |s|
  {
    var hi := s[..|s| - 1];
    assert hi[0] == s[0];
    if |hi| >= 2 {
      CanonicalLarge(hi);
    } else {
      assert DigitsValue(hi) == DigitValue(s[0]) >= 1;
    }
  }

  /** `String(i)` for an integer (no exponent notation: see the README). */
  function IntToString(i: int): (r: string)
    ensures |r| >= 1
  {
    if i < 0 then "-" + NatToString(-i) else NatToString(i)
  }
}
