/** The pure parts of code/generate.cpp: the substitution of a hook command
    into the configured shell string (makeSystemExecCommand) and the `hex` and
    `rgb` callbacks the templates call, which go through parseColorOrThrow.
    Thrown std::runtime_error values are Failure results carrying what(). */
module Generate {
  import opened Wrappers
  import opened Text
  import opened Colors

  /** `pat` occurs in `s` starting at index `i`. */
  predicate OccursAt(s: string, pat: string, i: int) {
    0 <= i && i + |pat| <= |s| && s[i..i + |pat|] == pat
  }

  /** std::string::find from position `from`: the first occurrence of `pat`
      at or after `from`, or None for npos. */
  function FindFrom(s: string, pat: string, from: nat): (r: Option<nat>)
    ensures r.Some? ==> from <= r.value && OccursAt(s, pat, r.value)
    ensures r.Some? ==> forall j :: from <= j < r.value ==> !OccursAt(s, pat, j)
    ensures r.None? ==> forall j :: from <= j ==> !OccursAt(s, pat, j)
    decreases |s| - from
  {
    if from + |pat| > |s| then None
    else if s[from..from + |pat|] == pat then Some(from)
    else FindFrom(s, pat, from + 1)
  }

  /** std::string::find from the start. */
  function Find(s: string, pat: string): Option<nat> {
    FindFrom(s, pat, 0)
  }

  const Placeholder := "{}"

  /** makeSystemExecCommand: the first "{}" of the shell string is replaced by
      the command; a shell string without one is an error. */
  function MakeSystemExecCommand(shell: string, command: string): (r: Result<string, string>)
    ensures r.Failure? <==> forall j :: !OccursAt(shell, Placeholder, j)
    ensures r.Failure? ==> r.error == "something wrong with shell"
    ensures r.Success? ==> |r.value| == |shell| - 2 + |command|
  {
    match Find(shell, Placeholder)
    case None => Failure("something wrong with shell")
    case Some(found) => Success(shell[..found] + command + shell[found + 2..])
  }

  /** With the first "{}" of `shell` at `i`, the command is the shell string
      up to `i`, then the command, then the shell string after the "{}". */
  lemma SubstitutesFirstPlaceholder(shell: string, command: string, i: nat)
    requires OccursAt(shell, Placeholder, i)
    requires forall j :: 0 <= j < i ==> !OccursAt(shell, Placeholder, j)
    ensures MakeSystemExecCommand(shell, command) == Success(shell[..i] + command + shell[i + 2..])
  {
    var found := Find(shell, Placeholder);
    assert found.Some? by { assert OccursAt(shell, Placeholder, i); }
  }

  /** The substitution can be undone: putting "{}" back in place of the
      command gives the shell string again. */
  lemma SubstitutionInverts(shell: string, command: string)
    requires MakeSystemExecCommand(shell, command).Success?
    ensures var cmd := MakeSystemExecCommand(shell, command).value;
      var i := Find(shell, Placeholder).value;
      && cmd[i..i + |command|] == command
      && cmd[..i] + Placeholder + cmd[i + |command|..] == shell
  {
    var cmd := MakeSystemExecCommand(shell, command).value;
    var i := Find(shell, Placeholder).value;
    assert cmd == shell[..i] + command + shell[i + 2..];
    assert cmd[..i] == shell[..i];
    assert cmd[i + |command|..] == shell[i + 2..];
    assert shell[i..i + 2] == Placeholder;
    assert shell[..i] + Placeholder + shell[i + 2..] == shell;
  }

  /** Only the first "{}" is replaced: every later, non-overlapping "{}" of
      the shell string is still there, shifted by the length difference. */
  lemma LaterPlaceholdersKept(shell: string, command: string, k: nat)
    requires MakeSystemExecCommand(shell, command).Success?
    requires Find(shell, Placeholder).value + 2 <= k && OccursAt(shell, Placeholder, k)
    ensures OccursAt(MakeSystemExecCommand(shell, command).value, Placeholder, k - 2 + |command|)
  {
    var cmd := MakeSystemExecCommand(shell, command).value;
    var i := Find(shell, Placeholder).value;
    var tail := shell[i + 2..];
    assert cmd == shell[..i] + command + tail;
    var m := k - 2 + |command|;
    assert cmd[m..m + 2] == tail[k - i - 2..k - i] == shell[k..k + 2];
  }

  /** parseColorOrThrow: the colour parseColorFromHexStr finds, or an error
      quoting the argument. */
  function ParseColorOrThrow(colorStr: string): (r: Result<Color, string>)
    ensures r.Success? <==> ParseHex(colorStr).Some?
    ensures r.Success? ==> r.value == ParseHex(colorStr).value
    ensures r.Failure? ==> r.error == "'" + colorStr + "' is not valid color"
  {
    match ParseHex(colorStr)
    case None => Failure("'" + colorStr + "' is not valid color")
    case Some(c) => Success(c)
  }

  /** The `hex` callback: the colour's three bytes in the `02x` format, one after another. */
  function HexCallback(arg: string): (r: Result<string, string>)
    ensures r.Success? <==> ParseHex(arg).Some?
    ensures r.Failure? ==> r.error == ParseColorOrThrow(arg).error
    ensures r.Success? ==> |r.value| == 6 && AllHex(r.value)
    ensures r.Success? ==> forall i :: 0 <= i < |r.value| ==> IsLowerHexDigit(r.value[i])
  {
    var color :- ParseColorOrThrow(arg);
    var c := color.AsRGB();
    Success(LowerHex2(c.r) + LowerHex2(c.g) + LowerHex2(c.b))
  }

  /** The `rgb` callback: the colour's three bytes in decimal as `{}, {}, {}`. */
  function RgbCallback(arg: string): (r: Result<string, string>)
    ensures r.Success? <==> ParseHex(arg).Some?
    ensures r.Failure? ==> r.error == ParseColorOrThrow(arg).error
  {
    var color :- ParseColorOrThrow(arg);
    var c := color.AsRGB();
    Success(Decimal(c.r) + ", " + Decimal(c.g) + ", " + Decimal(c.b))
  }

  lemma {:induction false} HexValueConcat(a: string, b: string)
    requires AllHex(a) && AllHex(b)
    ensures AllHex(a + b) && HexValue(a + b) == HexValue(a) * Pow16(|b|) + HexValue(b)
    decreases |b|
  {
    if b == [] {
      assert a + b == a;
    } else {
      var b', c := b[..|b| - 1], b[|b| - 1];
      assert b == b' + [c];
      assert a + b == (a + b') + [c];
      HexValueConcat(a, b');
      HexValueAppend(a + b', c);
      HexValueAppend(b', c);
      var x, p := HexValue(a), Pow16(|b'|);
      assert Pow16(|b|) == 16 * p;
      Regroup(x, p);
    }
  }

  lemma Regroup(x: nat, p: nat)
    ensures x * (16 * p) == (x * p) * 16
  {
  }

  /** What `hex` writes, prefixed with '#', parses back to the colour it was
      given: the callback normalises a colour without changing it. */
  lemma HexCallbackRoundTrip(arg: string)
    requires HexCallback(arg).Success?
    ensures ParseHex("#" + HexCallback(arg).value) == ParseHex(arg)
  {
    var color := ParseHex(arg).value;
    var c := color.AsRGB();
    var r, g, b := LowerHex2(c.r), LowerHex2(c.g), LowerHex2(c.b);
    var out := HexCallback(arg).value;
    assert out == (r + g) + b;
    assert Pow16(2) == 256;
    HexValueConcat(r, g);
    assert HexValue(r + g) == c.r * 256 + c.g;
    HexValueConcat(r + g, b);
    assert HexValue(out) == (c.r * 256 + c.g) * 256 + c.b;
    AsRGBRecomposes(color);
    assert HexValue(out) == color.value;
    SixHexDigitsParse(out);
    assert ("#" + out)[1..] == out;
  }

  /** The length of the run of decimal digits at the front of `s`. */
  function DecimalPrefixLength(s: string): (n: nat)
    ensures n <= |s| && AllDecimal(s[..n])
    ensures n < |s| ==> !IsDecimalDigit(s[n])
  {
    if s == [] || !IsDecimalDigit(s[0]) then 0
    else
      var n := 1 + DecimalPrefixLength(s[1..]);
      assert s[..n] == [s[0]] + s[1..][..n - 1];
      n
  }

  /** A decimal number followed by ", ": the number and what follows. */
  function ReadField(s: string): Option<(nat, string)> {
    var n := DecimalPrefixLength(s);
    if n > 0 && n + 2 <= |s| && s[n] == ',' && s[n + 1] == ' ' then Some((DecimalValue(s[..n]), s[n + 2..]))
    else None
  }

  /** Reads text of the form "r, g, b" back into three numbers: an
      independent reader for what the `rgb` callback writes. */
  function ReadRgb(s: string): Option<(nat, nat, nat)> {
    match ReadField(s)
    case None => None
    case Some((r, s2)) =>
      match ReadField(s2)
      case None => None
      case Some((g, s3)) => if s3 != [] && AllDecimal(s3) then Some((r, g, DecimalValue(s3))) else None
  }

  lemma {:induction false} DecimalPrefixOf(d: string, t: string)
    requires AllDecimal(d)
    requires t == [] || !IsDecimalDigit(t[0])
    ensures DecimalPrefixLength(d + t) == |d|
    decreases |d|
  {
    if d != [] {
      assert (d + t)[1..] == d[1..] + t;
      DecimalPrefixOf(d[1..], t);
    } else {
      assert d + t == t;
    }
  }

  /** A number written by Decimal and followed by ", " is read back. */
  lemma ReadFieldOfDecimal(n: nat, rest: string)
    ensures ReadField(Decimal(n) + ", " + rest) == Some((n, rest))
  {
    var d := Decimal(n);
    var s := d + ", " + rest;
    assert s == d + (", " + rest);
    DecimalPrefixOf(d, ", " + rest);
    assert s[..|d|] == d;
    assert s[|d|] == ',' && s[|d| + 1] == ' ';
    assert s[|d| + 2..] == rest;
    DecimalRoundTrip(n);
  }

  /** Reading back what `rgb` writes gives the colour's three bytes, which
      recompose the parsed colour. */
  lemma RgbCallbackRoundTrip(arg: string)
    requires RgbCallback(arg).Success?
    ensures ReadRgb(RgbCallback(arg).value).Some?
    ensures var (r, g, b) := ReadRgb(RgbCallback(arg).value).value;
      r < 256 && g < 256 && b < 256 && r * 0x1_0000 + g * 0x100 + b == ParseHex(arg).value.value
  {
    var color := ParseHex(arg).value;
    var c := color.AsRGB();
    var dg, db := Decimal(c.g), Decimal(c.b);
    var s := RgbCallback(arg).value;
    assert s == Decimal(c.r) + ", " + (dg + ", " + db);
    ReadFieldOfDecimal(c.r, dg + ", " + db);
    ReadFieldOfDecimal(c.g, db);
    DecimalRoundTrip(c.b);
    AsRGBRecomposes(color);
  }
}
