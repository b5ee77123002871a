/** Decimal digit strings: `String(n)`, `parseInt(s, 10)` on digit-only text and `padStart(2, '0')`. */
module Decimal {
  import opened JsString

  function DigitChar(d: nat): (c: char)
    requires d < 10
    ensures IsDigit(c)
  {
    ('0' as int + d) as char
  }

  function DigitValue(c: char): (d: nat)
    requires IsDigit(c)
    ensures d < 10
  {
    c as int - '0' as int
  }

  predicate AllDigits(s: string)
  {
    forall i | 0 <= i < |s| :: IsDigit(s[i])
  }

  /** `String(n)` for a non-negative integer: its decimal digits without leading zeros. */
  function NatToString(n: nat): (r: string)
    ensures |r| >= 1 && AllDigits(r)
    ensures |r| == 1 || r[0] != '0'
    ensures n < 10 ==> |r| == 1
    ensures 10 <= n < 100 ==> |r| == 2
    ensures 100 <= n < 1000 ==> |r| == 3
    ensures 1000 <= n < 10000 ==> |r| == 4
  {
    if n < 10 then [DigitChar(n)] else NatToString(n / 10) + [DigitChar(n % 10)]
  }

  /** The number a digit string denotes; the empty string denotes 0, as `parseInt(s, 10) || 0` does. */
  function DigitsValue(s: string): nat
    requires AllDigits(s)
  {
    if |s| == 0 then 0 else DigitsValue(s[..|s| - 1]) * 10 + DigitValue(s[|s| - 1])
  }

  /** Reading back the decimal form of `n` gives `n`. */
  lemma {:induction false} DigitsValueOfNatToString(n: nat)
    ensures DigitsValue(NatToString(n)) == n
  {
    var r := NatToString(n);
    if n >= 10 {
      DigitsValueOfNatToString(n / 10);
      assert r[..|r| - 1] == NatToString(n / 10);
    }
  }

  /** Leading zeros do not change the value: `parseInt("01", 10)` is 1. */
  lemma {:induction false} LeadingZero(s: string)
    requires AllDigits(s)
    ensures DigitsValue("0" + s) == DigitsValue(s)
    decreases |s|
  {
    if |s| > 0 {
      var z := "0" + s;
      assert z[..|z| - 1] == "0" + s[..|s| - 1];
      LeadingZero(s[..|s| - 1]);
    }
  }

  lemma {:induction false} PositiveValue(t: string)
    requires AllDigits(t) && |t| >= 1 && t[0] != '0'
    ensures DigitsValue(t) >= 1
    decreases |t|
  {
    if |t| > 1 {
      PositiveValue(t[..|t| - 1]);
    }
  }

  /** Writing back the value of a digit string without a leading zero gives the string. */
  lemma {:induction false} NatToStringOfDigitsValue(t: string)
    requires AllDigits(t) && |t| >= 1 && t[0] != '0'
    ensures NatToString(DigitsValue(t)) == t
    decreases |t|
  {
    if |t| > 1 {
      var init := t[..|t| - 1];
      PositiveValue(init);
      NatToStringOfDigitsValue(init);
      assert init + [t[|t| - 1]] == t;
    }
  }

  /** `padStart(2, '0')`. */
  function PadStart2(s: string): (r: string)
    ensures |s| >= 2 ==> r == s
    ensures |s| < 2 ==> |r| == 2 && r[2 - |s|..] == s && forall i | 0 <= i < 2 - |s| :: r[i] == '0'
  {
    if |s| >= 2 then s else if |s| == 1 then "0" + s else "00"
  }

  /** A two-digit field read and written back with `padStart(2, '0')` is unchanged. */
  lemma TwoDigitRoundTrip(t: string)
    requires AllDigits(t) && |t| == 2
    ensures PadStart2(NatToString(DigitsValue(t))) == t
  {
    assert t[..1][..0] == [];
    if t[0] == '0' {
      assert DigitsValue(t[..1]) == DigitsValue(t[..1][..0]) * 10 + DigitValue(t[0]) == 0;
    } else {
      NatToStringOfDigitsValue(t);
    }
  }

  /** A number below 100 written with `padStart(2, '0')` reads back as itself. */
  lemma PaddedValue(n: nat)
    requires n < 100
    ensures var t := PadStart2(NatToString(n)); |t| == 2 && AllDigits(t) && DigitsValue(t) == n
  {
    DigitsValueOfNatToString(n);
    if n < 10 {
      LeadingZero(NatToString(n));
    }
  }
}
