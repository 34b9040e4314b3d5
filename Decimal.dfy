/**
 * Decimal text for integers, as Java's `String.valueOf(long)` writes it and
 * `Long.parseLong` / `Integer.parseInt` read it: an optional sign followed by
 * one or more digits, rejected when the value does not fit the target width.
 */
module Decimal {
  import opened Base

  predicate IsDigit(c: char) {
    '0' <= c <= '9'
  }

  predicate AllDigits(s: string) {
    forall i :: 0 <= i < |s| ==> IsDigit(s[i])
  }

  function DigitChar(d: nat): (c: char)
    requires d < 10
    ensures IsDigit(c) && c as int - '0' as int == d
  {
    ('0' as int + d) as char
  }

  /** The digits of a natural number, most significant first, without leading zeros. */
  function NatToString(n: nat): (s: string)
    ensures |s| >= 1 && AllDigits(s)
    ensures |s| > 1 ==> s[0] != '0'
    decreases n
  {
    if n < 10 then [DigitChar(n)] else NatToString(n / 10) + [DigitChar(n % 10)]
  }

  /** The decimal text of an integer: a minus sign for negative values. */
  function IntToString(n: int): (s: string)
    ensures |s| >= 1
    ensures forall i :: 0 <= i < |s| ==> IsDigit(s[i]) || s[i] == '-'
  {
    if n < 0 then "-" + NatToString(-n) else NatToString(n)
  }

  /** The value of a digit string. */
  function DigitsValue(s: string): nat
    requires AllDigits(s)
  {
    if s == [] then 0 else DigitsValue(s[..|s| - 1]) * 10 + (s[|s| - 1] as int - '0' as int)
  }

  /** Reading the digits of a number gives the number. */
  lemma {:induction false} DigitsValueNatToString(n: nat)
    ensures DigitsValue(NatToString(n)) == n
  {
    if n >= 10 {
      var s := NatToString(n);
      assert s[..|s| - 1] == NatToString(n / 10);
      DigitsValueNatToString(n / 10);
    }
  }

  /** An optionally signed digit string, of any size; anything else is malformed. */
  function ParseInt(s: string): (r: Option<int>)
    ensures r.Some? ==> |s| >= 1
  {
    if |s| >= 1 && (s[0] == '-' || s[0] == '+') then
      if |s| >= 2 && AllDigits(s[1..]) then
        Some(if s[0] == '-' then -(DigitsValue(s[1..]) as int) else DigitsValue(s[1..]))
      else None
    else if |s| >= 1 && AllDigits(s) then Some(DigitsValue(s))
    else None
  }

  /** Reading the text of any integer gives the integer back. */
  lemma ParseIntToString(n: int)
    ensures ParseInt(IntToString(n)) == Some(n)
  {
    if n < 0 {
      var s := IntToString(n);
      assert s[1..] == NatToString(-n);
      DigitsValueNatToString(-n);
    } else {
      DigitsValueNatToString(n);
    }
  }

  /** `Long.parseLong`: a decimal integer within the 64-bit range. */
  function ParseLong(s: string): (r: Option<Int64>)
    ensures r.Some? ==> ParseInt(s) == Some(r.value as int)
    ensures ParseInt(s).Some? && INT64_MIN <= ParseInt(s).value <= INT64_MAX ==> r.Some?
  {
    match ParseInt(s)
    case Some(v) => if INT64_MIN <= v <= INT64_MAX then Some(v as Int64) else None
    case None => None
  }

  /** `Integer.parseInt`: a decimal integer within the 32-bit range. */
  function ParseInt32(s: string): (r: Option<Int32>)
    ensures r.Some? ==> ParseInt(s) == Some(r.value as int)
    ensures ParseInt(s).Some? && INT32_MIN <= ParseInt(s).value <= INT32_MAX ==> r.Some?
  {
    match ParseInt(s)
    case Some(v) => if INT32_MIN <= v <= INT32_MAX then Some(v as Int32) else None
    case None => None
  }

  /** A value written out and read back at its own width is unchanged. */
  lemma ParseWidthsToString(x: Int64, y: Int32)
    ensures ParseLong(IntToString(x)) == Some(x)
    ensures ParseInt32(IntToString(y)) == Some(y)
  {
    ParseIntToString(x);
    ParseIntToString(y);
  }

  /** A value written out beyond a width is rejected by that width's reader. */
  lemma ParseOutOfRange(x: int)
    ensures (x < INT32_MIN || INT32_MAX < x) ==> ParseInt32(IntToString(x)) == None
    ensures (x < INT64_MIN || INT64_MAX < x) ==> ParseLong(IntToString(x)) == None
  {
    ParseIntToString(x);
  }
}
