/**
 * Java's `Long.toString`: the decimal text of a user id, as the order flow
 * passes it to the rewards engine. Parsing is its partner: the text names
 * exactly one id.
 */
module Decimal {
  import opened Wrappers

  predicate IsDigit(c: char) {
    '0' <= c <= '9'
  }

  predicate AllDigits(s: string) {
    forall i :: 0 <= i < |s| ==> IsDigit(s[i])
  }

  function DigitChar(d: nat): (c: char)
    requires d < 10
    ensures IsDigit(c)
  {
    "0123456789"[d]
  }

  function DigitValue(c: char): (d: nat)
    requires IsDigit(c)
    ensures d < 10
  {
    (c as int - '0' as int) as nat
  }

  /** The digits of `n`, most significant first, with no leading zero. */
  function NatToDecimal(n: nat): (s: string)
    ensures |s| > 0 && AllDigits(s)
    ensures |s| > 1 ==> s[0] != '0'
    decreases n
  {
    if n < 10 then [DigitChar(n)] else NatToDecimal(n / 10) + [DigitChar(n % 10)]
  }

  /** `Long.toString(n)`: a minus sign before the digits of a negative value. */
  function IntToDecimal(n: int): (s: string)
    ensures |s| > 0
    ensures n < 0 <==> s[0] == '-'
  {
    if n < 0 then "-" + NatToDecimal(-n) else NatToDecimal(n)
  }

  /** The value of a run of digits, most significant first; the empty run is 0. */
  function DigitsValue(s: string): nat
    requires AllDigits(s)
  {
    if |s| == 0 then 0 else DigitsValue(s[..|s| - 1]) * 10 + DigitValue(s[|s| - 1])
  }

  /**
   * An optional minus sign before a non-empty run of digits reads as its
   * value; anything else is `None`. Leading zeros and "-0" are accepted, so it
   * also reads texts `IntToDecimal` never produces.
   */
  function ParseDecimal(s: string): Option<int> {
    if |s| > 1 && s[0] == '-' && AllDigits(s[1..]) then Some(-(DigitsValue(s[1..]) as int))
    else if |s| > 0 && AllDigits(s) then Some(DigitsValue(s))
    else None
  }

  lemma {:induction false} NatRoundTrip(n: nat)
    ensures DigitsValue(NatToDecimal(n)) == n
    decreases n
  {
    if n >= 10 {
      var s := NatToDecimal(n);
      NatRoundTrip(n / 10);
      assert s[..|s| - 1] == NatToDecimal(n / 10);
      assert DigitValue(s[|s| - 1]) == n % 10;
    }
  }

  /** A run of digits reads back as its value. */
  lemma ParseDigits(t: string)
    requires |t| > 0 && AllDigits(t)
    ensures ParseDecimal(t) == Some(DigitsValue(t))
  {
    assert IsDigit(t[0]);
  }

  /** A minus sign before a run of digits reads back as the negated value. */
  lemma ParseNegative(t: string, m: nat)
    requires |t| > 0 && AllDigits(t) && DigitsValue(t) == m
    ensures ParseDecimal("-" + t) == Some(-(m as int))
  {
    assert ("-" + t)[1..] == t;
  }

  /** A non-negative id's text is its digits, which read back as the id. */
  lemma NonNegativeRoundTrip(n: int)
    requires n >= 0
    ensures ParseDecimal(IntToDecimal(n)) == Some(n)
  {
    var t := NatToDecimal(n);
    assert IntToDecimal(n) == t;
    NatRoundTrip(n);
    ParseDigits(t);
  }

  /** A negative id's text is a minus sign before the digits of its magnitude. */
  lemma NegativeText(n: int, m: nat)
    requires n < 0 && m == -n
    ensures IntToDecimal(n) == "-" + NatToDecimal(m)
  {
  }

  /** A negative id's text reads back as the id. */
  lemma NegativeRoundTrip(n: int)
    requires n < 0
    ensures ParseDecimal(IntToDecimal(n)) == Some(n)
  {
    var m: nat := -n;
    var t := NatToDecimal(m);
    NatRoundTrip(m);
    ParseNegative(t, m);
    NegativeText(n, m);
  }

  /** The id text reads back as the id it was printed from. */
  lemma DecimalRoundTrip(n: int)
    ensures ParseDecimal(IntToDecimal(n)) == Some(n)
  {
    if n < 0 {
      NegativeRoundTrip(n);
    } else {
      NonNegativeRoundTrip(n);
    }
  }

  /** Distinct ids print as distinct texts. */
  lemma DecimalInjective(m: int, n: int)
    requires IntToDecimal(m) == IntToDecimal(n)
    ensures m == n
  {
    DecimalRoundTrip(m);
    DecimalRoundTrip(n);
  }
}
