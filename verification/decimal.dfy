/** Decimal text of integers, as Kotlin's `Int.toString()` and `Long.toString()`
    write it and as string templates (`"$y"`) insert it, together with the
    reading-back function that serves as its inverse. */
module Decimal {
  import opened Options

  predicate IsDigit(c: char)
  {
    '0' <= c <= '9'
  }

  predicate AllDigits(s: string)
  {
    forall k :: 0 <= k < |s| ==> IsDigit(s[k])
  }

  function DigitValue(c: char): nat
    requires IsDigit(c)
  {
    c as int - '0' as int
  }

  function DigitChar(d: nat): (c: char)
    requires d < 10
    ensures IsDigit(c) && DigitValue(c) == d
  {
    ('0' as int + d) as char
  }

  /** The number a string of digits denotes, most significant digit first. */
  function ValueOf(s: string): nat
    requires AllDigits(s)
    decreases |s|
  {
    if |s| == 0 then 0 else ValueOf(s[..|s| - 1]) * 10 + DigitValue(s[|s| - 1])
  }

  function Pow10(k: nat): nat
  {
    if k == 0 then 1 else 10 * Pow10(k - 1)
  }

  /** The decimal digits of a natural number, most significant first. */
  function NatToString(n: nat): (r: string)
    ensures |r| >= 1
    decreases n
  {
    if n < 10 then [DigitChar(n)] else NatToString(n / 10) + [DigitChar(n % 10)]
  }

  /** The decimal text is canonical: digits only, denoting `n`, with no
      leading zero, and a single character exactly for `n` below 10. */
  lemma {:induction false} NatToStringDigits(n: nat)
    ensures var r := NatToString(n);
      && AllDigits(r) && ValueOf(r) == n
      && (|r| > 1 ==> r[0] != '0')
      && (n < 10 <==> |r| == 1)
    decreases n
  {
    var r := NatToString(n);
    if n >= 10 {
      NatToStringDigits(n / 10);
      assert r[..|r| - 1] == NatToString(n / 10);
    }
  }

  /** A number with `k` digits is written with exactly `k` characters. */
  lemma {:induction false} NatToStringLength(n: nat, k: nat)
    requires k >= 1 && Pow10(k - 1) <= n < Pow10(k)
    ensures |NatToString(n)| == k
  {
    NatToStringDigits(n);
    if k > 1 {
      assert Pow10(k - 1) == 10 * Pow10(k - 2);
      assert Pow10(k - 2) <= n / 10 < Pow10(k - 1);
      NatToStringLength(n / 10, k - 1);
    }
  }

  /** Kotlin `Int.toString()`: a minus sign before the digits of a negative
      number. */
  function IntToString(i: int): (r: string)
    ensures |r| > 0
  {
    var digits := NatToString(if i < 0 then -i else i);
    if i < 0 then "-" + digits else digits
  }

  /** The text of a non-negative number is its canonical digits. */
  lemma NonNegativeToString(i: int)
    requires i >= 0
    ensures IntToString(i) == NatToString(i)
    ensures AllDigits(IntToString(i)) && ValueOf(IntToString(i)) == i
  {
    NatToStringDigits(i);
  }

  /** No integer's text holds a line break, a comma or a dot. */
  lemma IntToStringChars(i: int)
    ensures var r := IntToString(i); '\n' !in r && ',' !in r && '.' !in r
  {
    var n := if i < 0 then -i else i;
    NatToStringDigits(n);
    var digits := NatToString(n);
    assert IsDigit('-') == false;
    if i < 0 {
      assert IntToString(i) == ['-'] + digits;
    }
  }

  /** The text of any integer reads back as that integer. */
  lemma IntToStringRoundTrip(i: int)
    ensures ParseInt(IntToString(i)) == Some(i)
  {
    var n := if i < 0 then -i else i;
    NatToStringDigits(n);
    var digits := NatToString(n);
    if i < 0 {
      assert IntToString(i)[1..] == digits;
    } else {
      assert digits[0] != '-';
    }
  }

  /** Reads a non-empty run of digits. */
  function ParseNat(s: string): Option<nat>
  {
    if |s| > 0 && AllDigits(s) then Some(ValueOf(s)) else None
  }

  /** Reads an optionally negative decimal integer. */
  function ParseInt(s: string): Option<int>
  {
    if |s| > 0 && s[0] == '-' then
      match ParseNat(s[1..])
      case Some(v) => Some(-(v as int))
      case None => None
    else
      match ParseNat(s)
      case Some(v) => Some(v)
      case None => None
  }
}
