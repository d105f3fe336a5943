/**
 * The decimal text of an integer, as Rust's `Display` for integers writes it
 * (`format!("{}", v)` and `to_string()`): an optional '-' then the digits,
 * without leading zeros.
 */
module Decimal {

  function DigitChar(d: nat): (c: char)
    requires d < 10
    ensures '0' <= c <= '9'
  {
    "0123456789"[d]
  }

  function DigitValue(c: char): (d: nat)
    requires '0' <= c <= '9'
    ensures d < 10
  {
    (c as int - '0' as int) as nat
  }

  lemma DigitRoundTrip(d: nat)
    requires d < 10
    ensures DigitValue(DigitChar(d)) == d
  {
  }

  predicate AllDigits(s: string)
  {
    forall i :: 0 <= i < |s| ==> '0' <= s[i] <= '9'
  }

  function NatDigits(n: nat): (s: string)
    decreases n
  {
    if n < 10 then [DigitChar(n)] else NatDigits(n / 10) + [DigitChar(n % 10)]
  }

  /** The text `Display` writes for an integer. */
  function DecimalString(v: int): string
  {
    if v < 0 then "-" + NatDigits(-v) else NatDigits(v)
  }

  /** Reads back the digits of a string of decimal digits. */
  function ParseNat(s: string): nat
    requires AllDigits(s)
  {
    if |s| == 0 then 0 else ParseNat(s[..|s| - 1]) * 10 + DigitValue(s[|s| - 1])
  }

  /** Reads back an optional '-' and the digits that follow. */
  function ParseInt(s: string): int
    requires |s| > 0
    requires s[0] == '-' ==> AllDigits(s[1..])
    requires s[0] != '-' ==> AllDigits(s)
  {
    if s[0] == '-' then -(ParseNat(s[1..]) as int) else ParseNat(s)
  }

  /** Digits only, at least one, and no leading zero unless the number is 0. */
  lemma {:induction false} NatDigitsWellFormed(n: nat)
    ensures var s := NatDigits(n);
      |s| > 0 && AllDigits(s) && (s[0] == '0' ==> n == 0)
    decreases n
  {
    if n >= 10 {
      NatDigitsWellFormed(n / 10);
    }
  }

  lemma {:induction false} NatDigitsRoundTrip(n: nat)
    ensures AllDigits(NatDigits(n)) && ParseNat(NatDigits(n)) == n
    decreases n
  {
    NatDigitsWellFormed(n);
    var s := NatDigits(n);
    if n < 10 {
      assert s[..0] == [];
    } else {
      NatDigitsRoundTrip(n / 10);
      assert s[..|s| - 1] == NatDigits(n / 10);
    }
  }

  /** The decimal text of any integer reads back as that integer. */
  lemma DecimalRoundTrip(v: int)
    ensures |DecimalString(v)| > 0
    ensures var s := DecimalString(v);
      (s[0] == '-' ==> AllDigits(s[1..])) && (s[0] != '-' ==> AllDigits(s)) && ParseInt(s) == v
  {
    var s := DecimalString(v);
    if v < 0 {
      var d := NatDigits(-v);
      NatDigitsRoundTrip(-v);
      assert s == "-" + d;
      assert s[0] == '-' && s[1..] == d;
    } else {
      NatDigitsRoundTrip(v);
      NatDigitsWellFormed(v);
      assert s == NatDigits(v) && '0' <= s[0] <= '9';
    }
  }
}
