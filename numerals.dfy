// Integer text: the parts of `int.TryParse`, `decimal.TryParse` and
// `decimal.ToString()` the controllers rely on. Decimal amounts are modelled
// as whole numbers within the range of System.Decimal.

module Numerals {
  import opened Optional
  import opened Text

  const Int32Min: int := -0x8000_0000
  const Int32Max: int := 0x7fff_ffff
  type Int32 = n: int | Int32Min <= n <= Int32Max

  /** The largest magnitude of System.Decimal, 2^96 - 1. */
  const DecimalMax: int := 79228162514264337593543950335
  type Decimal = n: int | -DecimalMax <= n <= DecimalMax

  predicate IsDigit(c: char) {
    '0' <= c <= '9'
  }

  predicate AllDigits(s: string) {
    forall i :: 0 <= i < |s| ==> IsDigit(s[i])
  }

  function DigitValue(c: char): nat
    requires IsDigit(c)
  {
    c as int - '0' as int
  }

  function Digit(d: nat): (c: char)
    requires d < 10
    ensures IsDigit(c) && DigitValue(c) == d
  {
    ('0' as int + d) as char
  }

  /** The value of a string of decimal digits, most significant first. */
  function DigitsValue(s: string): nat
    requires AllDigits(s)
  {
    if s == [] then 0 else DigitsValue(s[..|s| - 1]) * 10 + DigitValue(s[|s| - 1])
  }

  /** The shortest decimal numeral of `n` (no leading zeros). */
  function NatToDigits(n: nat): (r: string)
    ensures r != [] && AllDigits(r) && DigitsValue(r) == n
    ensures |r| > 1 ==> r[0] != '0'
  {
    if n < 10 then [Digit(n)]
    else
      var prefix := NatToDigits(n / 10);
      var r := prefix + [Digit(n % 10)];
      assert r[..|r| - 1] == prefix;
      r
  }

  /**
   * Integer syntax accepted by the model: optional white space, an optional
   * `+` or `-`, one or more ASCII digits, optional white space.
   */
  function ParseInteger(s: string): Option<int> {
    var t := Trim(s);
    if t != [] && (t[0] == '-' || t[0] == '+') then
      var body := t[1..];
      if body != [] && AllDigits(body) then
        var magnitude: int := DigitsValue(body);
        Some(if t[0] == '-' then -magnitude else magnitude)
      else None
    else if t != [] && AllDigits(t) then Some(DigitsValue(t))
    else None
  }

  /** Invariant-culture formatting of a whole number: `-` and the digits of its magnitude. */
  function FormatInteger(n: int): string {
    if n < 0 then "-" + NatToDigits(-n) else NatToDigits(n)
  }

  lemma ParseFormatInteger(n: int)
    ensures ParseInteger(FormatInteger(n)) == Some(n)
  {
    var s := FormatInteger(n);
    var digits := NatToDigits(if n < 0 then -n else n);
    assert !IsWhite(s[0]) && !IsWhite(s[|s| - 1]);
    TrimUnchanged(s);
    if n < 0 {
      assert s[1..] == digits;
    }
  }

  /** `int.TryParse`: integer syntax whose value fits in 32 bits. */
  function TryParseInt32(s: string): Option<Int32> {
    match ParseInteger(s)
    case Some(n) => if Int32Min <= n <= Int32Max then Some(n) else None
    case None => None
  }

  /** `decimal.TryParse`, restricted to whole numbers: integer syntax within the decimal range. */
  function TryParseDecimal(s: string): Option<Decimal> {
    match ParseInteger(s)
    case Some(n) => if -DecimalMax <= n <= DecimalMax then Some(n) else None
    case None => None
  }

  /** decimal.TryParse agrees with the integer syntax wherever the value is in range. */
  lemma TryParseDecimalOfParse(s: string)
    ensures ParseInteger(s).None? ==> TryParseDecimal(s).None?
    ensures forall n: Decimal :: ParseInteger(s) == Some(n) ==> TryParseDecimal(s) == Some(n)
  {
  }

  /** `decimal.ToString()` of a whole amount. */
  function DecimalToString(d: Decimal): string {
    FormatInteger(d)
  }

  /** A decimal written to a cookie reads back as the same decimal. */
  lemma DecimalRoundTrip(d: Decimal)
    ensures TryParseDecimal(DecimalToString(d)) == Some(d)
  {
    ParseFormatInteger(d);
  }

  lemma Int32RoundTrip(n: Int32)
    ensures TryParseInt32(FormatInteger(n)) == Some(n)
  {
    ParseFormatInteger(n);
  }
}
