/** Character classes and digit strings shared by the colour parser and the
    colour formatters: hexadecimal digits as accepted by std::isxdigit and
    std::from_chars in base 16, and the digit strings std::format writes for
    unsigned integers with the plain, `02x` and `02X` format specifications. */
module Text {

  /** std::isxdigit in the "C" locale. */
  predicate IsHexDigit(c: char) {
    ('0' <= c <= '9') || ('a' <= c <= 'f') || ('A' <= c <= 'F')
  }

  predicate IsLowerHexDigit(c: char) {
    ('0' <= c <= '9') || ('a' <= c <= 'f')
  }

  predicate IsUpperHexDigit(c: char) {
    ('0' <= c <= '9') || ('A' <= c <= 'F')
  }

  predicate IsDecimalDigit(c: char) {
    '0' <= c <= '9'
  }

  predicate AllHex(s: string) {
    forall i :: 0 <= i < |s| ==> IsHexDigit(s[i])
  }

  predicate AllDecimal(s: string) {
    forall i :: 0 <= i < |s| ==> IsDecimalDigit(s[i])
  }

  /** The value of one hexadecimal digit, either case. */
  function HexDigitValue(c: char): (d: nat)
    requires IsHexDigit(c)
    ensures d < 16
    ensures IsDecimalDigit(c) ==> d < 10
  {
    if '0' <= c <= '9' then c as int - '0' as int
    else if 'a' <= c <= 'f' then c as int - 'a' as int + 10
    else c as int - 'A' as int + 10
  }

  /** The lower-case digit for `d`, as std::format's `x` presentation writes it. */
  function LowerHexDigit(d: nat): (c: char)
    requires d < 16
    ensures IsLowerHexDigit(c) && IsHexDigit(c)
    ensures HexDigitValue(c) == d
  {
    if d < 10 then ('0' as int + d) as char else ('a' as int + d - 10) as char
  }

  /** The upper-case digit for `d`, as std::format's `X` presentation writes it. */
  function UpperHexDigit(d: nat): (c: char)
    requires d < 16
    ensures IsUpperHexDigit(c) && IsHexDigit(c)
    ensures HexDigitValue(c) == d
  {
    if d < 10 then ('0' as int + d) as char else ('A' as int + d - 10) as char
  }

  function Pow16(n: nat): (p: nat)
    ensures p >= 1
  {
    if n == 0 then 1 else 16 * Pow16(n - 1)
  }

  /** The number a string of hexadecimal digits denotes, most significant first. */
  function HexValue(s: string): (v: nat)
    requires AllHex(s)
    ensures v < Pow16(|s|)
  {
    if s == [] then 0
    else HexValue(s[..|s| - 1]) * 16 + HexDigitValue(s[|s| - 1])
  }

  /** A byte as exactly two lower-case hexadecimal digits (the `02x` format). */
  function LowerHex2(b: nat): (s: string)
    requires b < 256
    ensures |s| == 2 && AllHex(s)
    ensures forall i :: 0 <= i < |s| ==> IsLowerHexDigit(s[i])
    ensures HexValue(s) == b
  {
    [LowerHexDigit(b / 16), LowerHexDigit(b % 16)]
  }

  /** A number below 256 as exactly two upper-case hexadecimal digits (the `02X` format). */
  function UpperHex2(b: nat): (s: string)
    requires b < 256
    ensures |s| == 2 && AllHex(s)
    ensures forall i :: 0 <= i < |s| ==> IsUpperHexDigit(s[i])
    ensures HexValue(s) == b
  {
    [UpperHexDigit(b / 16), UpperHexDigit(b % 16)]
  }

  /** An unsigned integer in decimal without padding (`{}`). */
  function Decimal(n: nat): (s: string)
    ensures |s| >= 1 && AllDecimal(s)
    ensures (s[0] == '0') == (n == 0)
  {
    if n < 10 then [('0' as int + n) as char]
    else Decimal(n / 10) + [('0' as int + n % 10) as char]
  }

  /** The number a string of decimal digits denotes. */
  function DecimalValue(s: string): nat
    requires AllDecimal(s)
  {
    if s == [] then 0
    else DecimalValue(s[..|s| - 1]) * 10 + (s[|s| - 1] as int - '0' as int)
  }

  /** Decimal has an inverse: reading its digits back gives the number. */
  lemma {:induction false} DecimalRoundTrip(n: nat)
    ensures DecimalValue(Decimal(n)) == n
  {
    if n >= 10 {
      DecimalRoundTrip(n / 10);
      var s := Decimal(n);
      assert s[..|s| - 1] == Decimal(n / 10);
    }
  }
}
