/** Colours as 0xRRGGBB values and their parsing from hex strings
    (code/colors.h). */
module Colors {
  import opened Wrappers
  import opened Text

  type uint8 = x: int | 0 <= x < 0x100
  type uint32 = x: int | 0 <= x < 0x1_0000_0000

  /** Colour components, each in [0..255]. */
  datatype RGB = RGB(r: uint8, g: uint8, b: uint8)

  /** A colour as the 32-bit number 0xRRGGBB. */
  datatype Color = Color(value: uint32) {

    /** Splits the value into its red (bits 16-23), green (bits 8-15) and
        blue (bits 0-7) bytes; bits 24-31 are dropped. */
    function AsRGB(): (c: RGB)
      ensures c.r * 0x1_0000 + c.g * 0x100 + c.b == value % 0x100_0000
    {
      ByteSplit(value);
      RGB((value / 0x1_0000) % 0x100, (value / 0x100) % 0x100, value % 0x100)
    }
  }

  /** The low three bytes of `v`, taken by shifting and masking, make up
      its value modulo 2^24. */
  lemma ByteSplit(v: nat)
    ensures (v / 0x1_0000) % 0x100 * 0x1_0000 + (v / 0x100) % 0x100 * 0x100 + v % 0x100 == v % 0x100_0000
  {
    var q1, b := v / 0x100, v % 0x100;
    var q2, g := q1 / 0x100, q1 % 0x100;
    var q3, r := q2 / 0x100, q2 % 0x100;
    assert v / 0x1_0000 == q2;
    assert v == q3 * 0x100_0000 + (r * 0x1_0000 + g * 0x100 + b);
  }

  /** The defaulted three-way comparison `operator<=>` of Color, which compares
      the only member, `value`: negative, zero or positive. */
  function Compare(a: Color, b: Color): (c: int)
    ensures c == 0 <==> a == b
    ensures c < 0 <==> a.value < b.value
    ensures c > 0 <==> a.value > b.value
  {
    if a.value < b.value then -1 else if a.value == b.value then 0 else 1
  }

  /** Outcome of std::from_chars: the error code it reports. */
  datatype Errc = NoError | InvalidArgument | ResultOutOfRange

  /** What std::from_chars(first, last, value, 16) does for a std::uint32_t:
      `ptr` is how many characters it consumed, `ec` its error code, and
      `value` the number it stored (None when it left `value` untouched). */
  datatype FromCharsResult = FromCharsResult(ptr: nat, ec: Errc, value: Option<uint32>)

  /** The length of the longest prefix of `s` made of hexadecimal digits. */
  function HexPrefixLength(s: string): (n: nat)
    ensures n <= |s|
    ensures AllHex(s[..n])
    ensures n < |s| ==> !IsHexDigit(s[n])
  {
    if s == [] || !IsHexDigit(s[0]) then 0
    else
      var n := 1 + HexPrefixLength(s[1..]);
      assert s[..n] == [s[0]] + s[1..][..n - 1];
      n
  }

  /** std::from_chars in base 16 into a std::uint32_t: it reads the longest
      run of hexadecimal digits at the front (no sign, no "0x", no blanks);
      no digit at all is invalid_argument, a number that does not fit is
      result_out_of_range. */
  function FromCharsHex32(s: string): (r: FromCharsResult)
    ensures r.ec == InvalidArgument <==> (s == [] || !IsHexDigit(s[0]))
    ensures r.ec != InvalidArgument ==> r.ptr == HexPrefixLength(s) > 0
    ensures r.ec == NoError <==> r.value.Some?
    ensures r.ec == NoError ==> r.value.value == HexValue(s[..r.ptr])
    ensures r.ec == NoError <==>
              HexPrefixLength(s) > 0 && HexValue(s[..HexPrefixLength(s)]) < 0x1_0000_0000
    ensures r.ec == ResultOutOfRange <==>
              HexPrefixLength(s) > 0 && HexValue(s[..HexPrefixLength(s)]) >= 0x1_0000_0000
  {
    var n := HexPrefixLength(s);
    if n == 0 then FromCharsResult(0, InvalidArgument, None)
    else
      var v := HexValue(s[..n]);
      if v < 0x1_0000_0000 then FromCharsResult(n, NoError, Some(v))
      else FromCharsResult(n, ResultOutOfRange, None)
  }

  /** parseColorFromStrippedHexStr: six characters, read with from_chars.
      Only the error code is checked, not how far from_chars read, so the
      colour is the value of the leading hexadecimal digits and the rest of
      the six characters may be anything. */
  function ParseStrippedHex(s: string): (r: Option<Color>)
    ensures r.Some? <==> |s| == 6 && IsHexDigit(s[0])
    ensures r.Some? ==> r.value.value == HexValue(s[..HexPrefixLength(s)]) <= 0xFF_FFFF
  {
    if |s| != 6 then None
    else
      var fc := FromCharsHex32(s);
      assert fc.ec != NoError ==> fc.ec == InvalidArgument by {
        if fc.ec != InvalidArgument {
          assert fc.ptr <= 6;
          assert HexValue(s[..fc.ptr]) < Pow16(fc.ptr) <= Pow16(6) by { Pow16Monotone(fc.ptr, 6); }
        }
      }
      if fc.ec != NoError then None
      else
        assert HexValue(s[..fc.ptr]) < Pow16(fc.ptr) <= Pow16(6) by { Pow16Monotone(fc.ptr, 6); }
        Some(Color(fc.value.value))
  }

  /** parseColorFromHexStr: a '#' followed by what ParseStrippedHex accepts. */
  function ParseHex(s: string): (r: Option<Color>)
    ensures r.Some? <==> |s| == 7 && s[0] == '#' && IsHexDigit(s[1])
    ensures r.Some? ==> r.value.value <= 0xFF_FFFF
  {
    if |s| == 0 || s[0] != '#' then None else ParseStrippedHex(s[1..])
  }

  lemma {:induction false} Pow16Monotone(m: nat, n: nat)
    requires m <= n
    ensures Pow16(m) <= Pow16(n)
  {
    if m < n { Pow16Monotone(m, n - 1); }
  }

  /** The rest of a string that starts with '#' is parsed exactly as
      parseColorFromStrippedHexStr parses it; anything else is rejected. */
  lemma ParseHexStripsHash(s: string)
    ensures |s| > 0 && s[0] == '#' ==> ParseHex(s) == ParseStrippedHex(s[1..])
    ensures (|s| == 0 || s[0] != '#') ==> ParseHex(s) == None
  {
  }

  /** Six hexadecimal digits, in either case, parse to the number they denote. */
  lemma SixHexDigitsParse(s: string)
    requires |s| == 6 && AllHex(s)
    ensures ParseStrippedHex(s) == Some(Color(HexValue(s)))
  {
    assert s[..6] == s;
  }

  lemma {:induction false} HexValueAppend(s: string, c: char)
    requires AllHex(s) && IsHexDigit(c)
    ensures AllHex(s + [c]) && HexValue(s + [c]) == HexValue(s) * 16 + HexDigitValue(c)
  {
    assert (s + [c])[..|s|] == s;
  }

  /** The digits of the first compile-time test denote 0x3233ae. */
  lemma ExampleDigitsValue()
    ensures AllHex("3233ae") && HexValue("3233ae") == 0x3233ae
  {
    var h := "3233ae";
    assert h[..1] == [] + ['3'];
    HexValueAppend([], '3');
    assert h[..2] == h[..1] + ['2'];
    HexValueAppend(h[..1], '2');
    assert h[..3] == h[..2] + ['3'];
    HexValueAppend(h[..2], '3');
    assert h[..4] == h[..3] + ['3'];
    HexValueAppend(h[..3], '3');
    assert h[..5] == h[..4] + ['a'];
    HexValueAppend(h[..4], 'a');
    assert h == h[..5] + ['e'];
    HexValueAppend(h[..5], 'e');
  }

  /** The source's first compile-time test: "#3233ae" is the colour 0x3233ae. */
  lemma ParseExampleValid()
    ensures ParseHex("#3233ae") == Some(Color(0x3233ae))
  {
    ExampleDigitsValue();
    SixHexDigitsParse("3233ae");
    assert "#3233ae"[1..] == "3233ae";
  }

  /** The source's second compile-time test: "#xzxa2w" is rejected. */
  lemma ParseExampleInvalid()
    ensures ParseHex("#xzxa2w") == None
  {
    assert !IsHexDigit("#xzxa2w"[1]);
  }

  /** The end pointer of from_chars is not checked: "12zzzz" is accepted as
      the colour 0x000012 although only two of its six characters are digits. */
  lemma ParseAcceptsHexPrefix()
    ensures ParseStrippedHex("12zzzz") == Some(Color(0x12))
  {
    var s := "12zzzz";
    assert HexPrefixLength(s[2..]) == 0;
    assert HexPrefixLength(s[1..]) == 1 by { assert s[1..][1..] == s[2..]; }
    assert HexPrefixLength(s) == 2;
    HexValueAppend("", '1');
    HexValueAppend("1", '2');
    assert s[..2] == "12";
  }

  /** For a colour of at most 24 bits the three bytes of AsRGB recompose the
      value, and equal colours have equal components. */
  lemma AsRGBRecomposes(c: Color)
    requires c.value <= 0xFF_FFFF
    ensures c.AsRGB().r * 0x1_0000 + c.AsRGB().g * 0x100 + c.AsRGB().b == c.value
  {
  }
}
