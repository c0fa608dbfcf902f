/** Decimal text of integers: Python's `str(n)` for an `int`, and `int(s)`
    restricted to an optional sign followed by ASCII digits. */
module Numerals {
  import opened Wrappers

  predicate IsDigit(c: char) {
    '0' <= c <= '9'
  }

  function DigitChar(d: nat): (c: char)
    requires d < 10
    ensures IsDigit(c)
  {
    (48 + d) as char
  }

  function DigitValue(c: char): (r: Option<nat>)
    ensures r.Some? <==> IsDigit(c)
    ensures r.Some? ==> r.value < 10
  {
    if IsDigit(c) then Some(c as int - 48) else None
  }

  /** Python's `str(n)` for a non-negative integer: no sign, no leading zero. */
  function NatToString(n: nat): (r: string)
    ensures |r| >= 1
    ensures forall i :: 0 <= i < |r| ==> IsDigit(r[i])
    decreases n
  {
    if n < 10 then [DigitChar(n)]
    else NatToString(n / 10) + [DigitChar(n % 10)]
  }

  /** Python's `str(i)` for an integer. */
  function IntToString(i: int): (r: string)
    ensures ',' !in r
  {
    if i < 0 then "-" + NatToString(-i) else NatToString(i)
  }

  /** `str(i)` is a sign and digits only. */
  lemma IntToStringChars(i: int)
    ensures var r := IntToString(i); |r| >= 1 && forall k :: 0 <= k < |r| ==> r[k] == '-' || IsDigit(r[k])
  {
  }

  /** A non-empty run of ASCII digits as a number, leading zeros allowed. */
  function ParseDigits(s: string): Option<nat>
    decreases |s|
  {
    if |s| == 0 then None
    else
      match DigitValue(s[|s| - 1])
      case None => None
      case Some(d) =>
        if |s| == 1 then Some(d)
        else
          match ParseDigits(s[..|s| - 1])
          case None => None
          case Some(n) => Some(n * 10 + d)
  }

  /** Python's `int(s)` on an optional `-` or `+` followed by digits; anything
      else is the `ValueError` case. */
  function ParseInt(s: string): Option<int> {
    if |s| > 0 && s[0] == '-' then
      match ParseDigits(s[1..])
      case None => None
      case Some(n) => Some(-(n as int))
    else if |s| > 0 && s[0] == '+' then
      match ParseDigits(s[1..])
      case None => None
      case Some(n) => Some(n)
    else
      match ParseDigits(s)
      case None => None
      case Some(n) => Some(n)
  }

  lemma {:induction false} ParseDigitsOfNat(n: nat)
    ensures ParseDigits(NatToString(n)) == Some(n)
    decreases n
  {
    var s := NatToString(n);
    if n >= 10 {
      ParseDigitsOfNat(n / 10);
      assert s[..|s| - 1] == NatToString(n / 10);
      assert s[|s| - 1] == DigitChar(n % 10);
    }
  }

  /** `int(str(i)) == i`: the text the service writes for an integer parses back to it. */
  lemma ParseIntOfString(i: int)
    ensures ParseInt(IntToString(i)) == Some(i)
  {
    var s := IntToString(i);
    if i < 0 {
      ParseDigitsOfNat(-i);
      assert s[0] == '-' && s[1..] == NatToString(-i);
    } else {
      ParseDigitsOfNat(i);
      assert IsDigit(s[0]);
    }
  }
}
