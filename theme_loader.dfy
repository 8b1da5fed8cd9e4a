/** Theme::loadFromYAMLFile (code/Theme.cpp): reads a base16/base24 scheme
    into a JSON object holding the file name, the four common fields and
    every palette colour, both at the top level and under "palette". The
    colours are checked with a strict "#RRGGBB" test. */
module ThemeLoader {
  import opened Wrappers
  import opened Text
  import opened Yaml
  import opened Json
  import Colors
  import PaletteKeys

  /** getStrOrThrow: a string child of `parent`; a missing child is a
      runtime error naming it. */
  function GetStrOrThrow(parent: Ref, name: string): (r: Result<string, Exception>)
    ensures r.Success? <==> parent.Defined? && parent.node.Mapping? && name in parent.node.entries
                            && parent.node.entries[name].Scalar?
    ensures r.Success? ==> r.value == parent.node.entries[name].text
    ensures r == Failure(RuntimeError(NotFound(name))) <==>
              parent.Defined? && !parent.node.Scalar? && !(parent.node.Mapping? && name in parent.node.entries)
  {
    var node :- Throw(Lookup(parent, name));
    if node.Zombie? then Failure(RuntimeError(NotFound(name))) else Throw(AsString(node))
  }

  function NotFound(name: string): string {
    "node '" + name + "' not found"
  }

  function InvalidColor(hex: string): string {
    "invalid color hex-value ('" + hex + "')"
  }

  /** getPaletteColorsCount: how many palette colours a colour system has. */
  function PaletteColorsCount(system: string): (n: nat)
    ensures n == 16 <==> system == "base16"
    ensures n == 24 <==> system == "base24"
    ensures n == 0 <==> system != "base16" && system != "base24"
  {
    if system == "base16" then 16 else if system == "base24" then 24 else 0
  }

  /** isValidHexColor: '#' and six hexadecimal digits, written out digit by digit. */
  function IsValidHexColor(s: string): (b: bool)
    ensures b <==> |s| == 7 && s[0] == '#' && AllHex(s[1..])
  {
    |s| == 7 && s[0] == '#' && IsHexDigit(s[1]) && IsHexDigit(s[2]) && IsHexDigit(s[3])
    && IsHexDigit(s[4]) && IsHexDigit(s[5]) && IsHexDigit(s[6])
    && (assert forall i :: 1 <= i < 7 ==> s[i] == s[1..][i - 1]; true)
  }

  /** The name of palette colour `n`: "base" and `n` in the `02X` format. */
  function KeyName(n: nat): (k: string)
    requires n < 256
    ensures StartsWithBase(k)
  {
    "base" + UpperHex2(n)
  }

  /** A key name is "base" and two upper-case hexadecimal digits that denote
      the colour's number, so different numbers have different names. */
  lemma KeyNameFormat(n: nat)
    requires n < 256
    ensures |KeyName(n)| == 6 && KeyName(n)[..4] == "base"
    ensures IsUpperHexDigit(KeyName(n)[4]) && IsUpperHexDigit(KeyName(n)[5])
    ensures AllHex(KeyName(n)[4..]) && HexValue(KeyName(n)[4..]) == n
  {
    assert KeyName(n)[4..] == UpperHex2(n);
  }

  lemma KeyNameInjective(m: nat, n: nat)
    requires m < 256 && n < 256 && KeyName(m) == KeyName(n)
    ensures m == n
  {
    KeyNameFormat(m);
    KeyNameFormat(n);
  }

  /** The first sixteen generated names are the base16 key list, in order. */
  lemma KeyNamesMatchBase16(i: nat)
    requires i < 16
    ensures KeyName(i) == PaletteKeys.Base16Keys[i]
  {
    assert UpperHex2(i) == [UpperHexDigit(0), UpperHexDigit(i)];
  }

  /** The generated names are those of the base24 key list, in order, and the
      first sixteen those of the base16 list. */
  lemma KeyNamesMatchLists(i: nat)
    requires i < 24
    ensures KeyName(i) == PaletteKeys.Base24Keys[i]
    ensures i < 16 ==> KeyName(i) == PaletteKeys.Base16Keys[i]
  {
    if i < 16 {
      KeyNamesMatchBase16(i);
      PaletteKeys.Base16IsPrefixOfBase24();
      assert PaletteKeys.Base24Keys[i] == PaletteKeys.Base24Keys[..16][i];
    } else {
      assert UpperHex2(i) == [UpperHexDigit(1), UpperHexDigit(i - 16)];
    }
  }

  /** The common fields, copied in this order. */
  const CommonFields: seq<string> := ["system", "name", "author", "variant"]

  /** The common fields `names` of `root`, the first missing one an error. */
  function CopyFields(root: Node, names: seq<string>): (r: Result<map<string, string>, Exception>)
    ensures r.Success? ==> r.value.Keys == set n | n in names
    ensures r.Success? ==> forall n :: n in names ==> GetStrOrThrow(Defined(root), n) == Success(r.value[n])
  {
    if names == [] then Success(map[])
    else
      var m :- CopyFields(root, names[..|names| - 1]);
      var v :- GetStrOrThrow(Defined(root), names[|names| - 1]);
      assert forall n :: n in names ==> n in names[..|names| - 1] || n == names[|names| - 1];
      Success(m[names[|names| - 1] := v])
  }

  /** The names of the first `n` palette colours, in order. */
  function KeyNames(n: nat): (ks: seq<string>)
    requires n <= 256
    ensures |ks| == n && forall i :: 0 <= i < n ==> ks[i] == KeyName(i)
    ensures forall k :: k in ks ==> StartsWithBase(k)
  {
    if n == 0 then [] else KeyNames(n - 1) + [KeyName(n - 1)]
  }

  /** Six characters starting with "base", as every colour key is. */
  predicate StartsWithBase(k: string) {
    |k| == 6 && k[0] == 'b' && k[1] == 'a' && k[2] == 's' && k[3] == 'e'
  }

  /** The palette colours under `keys`, in order; the first missing or
      invalid colour is an error. */
  function PaletteEntries(paletteNode: Ref, keys: seq<string>): (r: Result<map<string, string>, Exception>)
    ensures r.Success? ==> r.value.Keys == set k | k in keys
    ensures r.Success? ==> forall k :: k in keys ==>
              GetStrOrThrow(paletteNode, k) == Success(r.value[k]) && IsValidHexColor(r.value[k])
  {
    if keys == [] then Success(map[])
    else
      var m :- PaletteEntries(paletteNode, keys[..|keys| - 1]);
      var key := keys[|keys| - 1];
      var hex :- GetStrOrThrow(paletteNode, key);
      assert forall k :: k in keys ==> k in keys[..|keys| - 1] || k == key;
      if !IsValidHexColor(hex) then Failure(RuntimeError(InvalidColor(hex)))
      else Success(m[key := hex])
  }

  /** What Theme::loadFromYAMLFile returns or throws for the document `root`
      loaded from the file whose absolute path is `file`. */
  function ThemeJson(root: Node, file: string): Result<Json, Exception>
  {
    var common :- CopyFields(root, CommonFields);
    assert "system" in CommonFields;
    var count := PaletteColorsCount(common["system"]);
    var paletteNode := Lookup(Defined(root), "palette").value;
    var palette :- PaletteEntries(paletteNode, KeyNames(count));
    Success(ThemeObject(file, common, palette))
  }

  /** The object Theme::loadFromYAMLFile builds: the file name, the common
      fields, every colour at the top level, and the colours under "palette". */
  function ThemeObject(file: string, common: map<string, string>, palette: map<string, string>): Json {
    Obj((map["file" := Str(file)] + StrFields(common) + StrFields(palette))["palette" := Obj(StrFields(palette))])
  }

  /** Where each input of ThemeObject ends up, given that colour keys start
      with "base" and the common fields are system, name, author, variant. */
  lemma ThemeObjectFields(file: string, common: map<string, string>, palette: map<string, string>)
    requires common.Keys == set c | c in CommonFields
    requires forall k :: k in palette ==> StartsWithBase(k)
    ensures var f := ThemeObject(file, common, palette).fields;
      && f["file"] == Str(file)
      && (forall c :: c in common ==> f[c] == Str(common[c]))
      && (forall k :: k in palette ==> f[k] == Str(palette[k]))
      && f["palette"] == Obj(StrFields(palette))
  {
    assert "file" !in palette && "palette" !in palette;
    forall c | c in common ensures c !in palette {
    }
  }

  /** A failure among the first `k` fields is the failure of all of them. */
  lemma {:induction false} CopyFieldsFailureExtends(root: Node, names: seq<string>, k: nat)
    requires k <= |names| && CopyFields(root, names[..k]).Failure?
    ensures CopyFields(root, names) == CopyFields(root, names[..k])
    decreases |names| - k
  {
    if k < |names| {
      assert names[..k + 1][..k] == names[..k];
      CopyFieldsFailureExtends(root, names, k + 1);
    } else {
      assert names[..k] == names;
    }
  }

  /** A failure among the first `k` colours is the failure of all of them. */
  lemma {:induction false} PaletteFailureExtends(paletteNode: Ref, keys: seq<string>, k: nat)
    requires k <= |keys| && PaletteEntries(paletteNode, keys[..k]).Failure?
    ensures PaletteEntries(paletteNode, keys) == PaletteEntries(paletteNode, keys[..k])
    decreases |keys| - k
  {
    if k < |keys| {
      assert keys[..k + 1][..k] == keys[..k];
      PaletteFailureExtends(paletteNode, keys, k + 1);
    } else {
      assert keys[..k] == keys;
    }
  }

  /** Theme::loadFromYAMLFile. The file is loaded elsewhere (`root`) and its
      absolute path is given (`file`); exceptions are returned as failures. */
  method LoadFromYAMLFile(root: Node, file: string) returns (r: Result<Json, Exception>)
    ensures r == ThemeJson(root, file)
  {
    var common, result := CopyFieldsLoop(root, CommonFields, file);
    if common.Failure? {
      return Failure(common.error);
    }
    assert "system" in CommonFields;

    // The second getStrOrThrow(rootNode, "system") reads the node read above.
    var paletteColors := PaletteColorsCount(common.value["system"]);
    var paletteNode := Lookup(Defined(root), "palette").value;
    var entries := CopyPalette(paletteNode, paletteColors);
    if entries.Failure? {
      return Failure(entries.error);
    }
    var palette := StrFields(entries.value);
    result := result + palette;
    result := result["palette" := Obj(palette)];
    return Success(Obj(result));
  }

  /** The common-field loop of Theme::loadFromYAMLFile over `names` (called
      with CommonFields): each field is stored next to the file name as soon
      as it is read. */
  method CopyFieldsLoop(root: Node, names: seq<string>, file: string)
    returns (r: Result<map<string, string>, Exception>, result: map<string, Json>)
    ensures r == CopyFields(root, names)
    ensures r.Success? ==> result == map["file" := Str(file)] + StrFields(r.value)
  {
    result := map["file" := Str(file)];
    var common: map<string, string> := map[];
    for k := 0 to |names|
      invariant CopyFields(root, names[..k]) == Success(common)
      invariant result == map["file" := Str(file)] + StrFields(common)
    {
      var name := names[k];
      var value := GetStrOrThrow(Defined(root), name);
      if value.Failure? {
        CopyFieldsNextFails(root, names, k);
        return Failure(value.error), result;
      }
      CopyFieldsNext(root, names, k, common, value.value);
      StrFieldsUpdate(map["file" := Str(file)], common, name, value.value);
      result := result[name := Str(value.value)];
      common := common[name := value.value];
    }
    assert names[..|names|] == names;
    return Success(common), result;
  }

  /** One step of the common-field loop that reads a string. */
  lemma CopyFieldsNext(root: Node, names: seq<string>, k: nat, common: map<string, string>, v: string)
    requires k < |names| && CopyFields(root, names[..k]) == Success(common)
    requires GetStrOrThrow(Defined(root), names[k]) == Success(v)
    ensures CopyFields(root, names[..k + 1]) == Success(common[names[k] := v])
  {
    assert names[..k + 1][..k] == names[..k];
  }

  /** One step of the common-field loop that fails ends the loop with its exception. */
  lemma CopyFieldsNextFails(root: Node, names: seq<string>, k: nat)
    requires k < |names| && CopyFields(root, names[..k]).Success?
    requires GetStrOrThrow(Defined(root), names[k]).Failure?
    ensures CopyFields(root, names) == Failure(GetStrOrThrow(Defined(root), names[k]).error)
  {
    assert names[..k + 1][..k] == names[..k];
    CopyFieldsFailureExtends(root, names, k + 1);
  }

  /** The `for colorNo` loop of Theme::loadFromYAMLFile: reads colours
      base00, base01, ... in turn, stopping at the first one that is missing
      or fails isValidHexColor. */
  method CopyPalette(paletteNode: Ref, paletteColors: nat) returns (r: Result<map<string, string>, Exception>)
    requires paletteColors <= 256
    ensures r == PaletteEntries(paletteNode, KeyNames(paletteColors))
  {
    var palette: map<string, string> := map[];
    var colorNo := 0;
    while colorNo < paletteColors
      invariant colorNo <= paletteColors
      invariant PaletteEntries(paletteNode, KeyNames(colorNo)) == Success(palette)
    {
      var colorName := KeyName(colorNo);
      var colorHex := GetStrOrThrow(paletteNode, colorName);
      if colorHex.Failure? {
        PaletteNextFails(paletteNode, colorNo, paletteColors);
        return Failure(colorHex.error);
      }
      if !IsValidHexColor(colorHex.value) {
        PaletteNextFails(paletteNode, colorNo, paletteColors);
        return Failure(RuntimeError(InvalidColor(colorHex.value)));
      }
      PaletteNextSucceeds(paletteNode, colorNo, palette, colorHex.value);
      palette := palette[colorName := colorHex.value];
      colorNo := colorNo + 1;
    }
    return Success(palette);
  }

  /** One step of the colour loop that reads a valid colour. */
  lemma PaletteNextSucceeds(paletteNode: Ref, c: nat, palette: map<string, string>, hex: string)
    requires c < 256 && PaletteEntries(paletteNode, KeyNames(c)) == Success(palette)
    requires GetStrOrThrow(paletteNode, KeyName(c)) == Success(hex) && IsValidHexColor(hex)
    ensures PaletteEntries(paletteNode, KeyNames(c + 1)) == Success(palette[KeyName(c) := hex])
  {
    assert KeyNames(c + 1)[..c] == KeyNames(c);
  }

  /** One step of the colour loop that fails ends the whole loop with that failure. */
  lemma PaletteNextFails(paletteNode: Ref, c: nat, n: nat)
    requires c < n <= 256 && PaletteEntries(paletteNode, KeyNames(c)).Success?
    requires var hex := GetStrOrThrow(paletteNode, KeyName(c)); hex.Failure? || !IsValidHexColor(hex.value)
    ensures PaletteEntries(paletteNode, KeyNames(n)) ==
              var hex := GetStrOrThrow(paletteNode, KeyName(c));
              if hex.Failure? then Failure(hex.error) else Failure(RuntimeError(InvalidColor(hex.value)))
  {
    KeyNamesPrefix(c, n);
    assert KeyNames(n)[c] == KeyName(c);
    PaletteFailsAt(paletteNode, KeyNames(n), c);
  }

  /** A failure at key `c` after valid colours is the failure of all of `keys`. */
  lemma PaletteFailsAt(paletteNode: Ref, keys: seq<string>, c: nat)
    requires c < |keys| && PaletteEntries(paletteNode, keys[..c]).Success?
    requires var hex := GetStrOrThrow(paletteNode, keys[c]); hex.Failure? || !IsValidHexColor(hex.value)
    ensures PaletteEntries(paletteNode, keys) ==
              var hex := GetStrOrThrow(paletteNode, keys[c]);
              if hex.Failure? then Failure(hex.error) else Failure(RuntimeError(InvalidColor(hex.value)))
  {
    assert keys[..c + 1][..c] == keys[..c];
    PaletteLastFails(paletteNode, keys[..c + 1]);
    PaletteFailureExtends(paletteNode, keys, c + 1);
  }

  /** A valid prefix followed by a key that is missing or holds an invalid
      colour fails with that key's error. */
  lemma PaletteLastFails(paletteNode: Ref, keys: seq<string>)
    requires keys != [] && PaletteEntries(paletteNode, keys[..|keys| - 1]).Success?
    requires var hex := GetStrOrThrow(paletteNode, keys[|keys| - 1]); hex.Failure? || !IsValidHexColor(hex.value)
    ensures PaletteEntries(paletteNode, keys) ==
              var hex := GetStrOrThrow(paletteNode, keys[|keys| - 1]);
              if hex.Failure? then Failure(hex.error) else Failure(RuntimeError(InvalidColor(hex.value)))
  {
  }

  /** Every colour isValidHexColor accepts is accepted by parseColorFromHexStr
      with the value of its six digits; the converse fails: "#12zzzz" parses
      but is not a valid hex colour here. */
  lemma ValidHexColorParses(s: string)
    ensures IsValidHexColor(s) ==> Colors.ParseHex(s) == Some(Colors.Color(HexValue(s[1..])))
    ensures Colors.ParseHex("#12zzzz").Some? && !IsValidHexColor("#12zzzz")
  {
    if IsValidHexColor(s) {
      Colors.SixHexDigitsParse(s[1..]);
    }
    var t := "#12zzzz";
    assert t[1..] == "12zzzz";
    Colors.ParseAcceptsHexPrefix();
  }

  /** The first `n` key names are `n` different names. */
  lemma KeyNamesCount(n: nat)
    requires n <= 256
    ensures |set k | k in KeyNames(n)| == n
  {
    var ks := KeyNames(n);
    forall i, j | 0 <= i < j < |ks| ensures ks[i] != ks[j] {
      if ks[i] == ks[j] { KeyNameInjective(i, j); }
    }
    DistinctCount(ks);
  }

  /** A sequence without repeated elements has as many distinct elements as
      it is long. */
  lemma {:induction false} DistinctCount(s: seq<string>)
    requires forall i, j :: 0 <= i < j < |s| ==> s[i] != s[j]
    ensures |set x | x in s| == |s|
  {
    if s != [] {
      var t := s[..|s| - 1];
      DistinctCount(t);
      assert (set x | x in s) == (set x | x in t) + {s[|s| - 1]};
      assert s[|s| - 1] !in t;
    }
  }

  lemma {:induction false} CopyFieldsSucceed(root: Node, names: seq<string>)
    requires root.Mapping?
    requires forall n :: n in names ==> n in root.entries && root.entries[n].Scalar?
    ensures CopyFields(root, names).Success?
  {
    if names != [] {
      CopyFieldsSucceed(root, names[..|names| - 1]);
    }
  }

  /** A palette node holding every one of `keys` as a valid hex colour
      yields those colours. */
  lemma {:induction false} PaletteEntriesSucceed(paletteNode: Ref, keys: seq<string>)
    requires paletteNode.Defined? && paletteNode.node.Mapping?
    requires forall k :: k in keys ==>
               && k in paletteNode.node.entries && paletteNode.node.entries[k].Scalar?
               && IsValidHexColor(paletteNode.node.entries[k].text)
    ensures PaletteEntries(paletteNode, keys).Success?
  {
    if keys != [] {
      PaletteEntriesSucceed(paletteNode, keys[..|keys| - 1]);
      var hex := paletteNode.node.entries[keys[|keys| - 1]].text;
      assert GetStrOrThrow(paletteNode, keys[|keys| - 1]) == Success(hex);
    }
  }

  /** No colour key collides with a field of the top-level object. */
  lemma KeyNameIsNotAField(i: nat)
    requires i < 256
    ensures KeyName(i) !in CommonFields && KeyName(i) != "file" && KeyName(i) != "palette"
  {
    assert StartsWithBase(KeyName(i));
  }

  /** A loaded theme was loaded from a mapping holding system, name, author
      and variant as strings, which it copies verbatim next to the file name. */
  lemma ThemeCommonFields(root: Node, file: string)
    requires ThemeJson(root, file).Success?
    ensures root.Mapping?
    ensures forall c :: c in CommonFields ==> c in root.entries && root.entries[c].Scalar?
    ensures var f := ThemeJson(root, file).value.fields;
      && f["file"] == Str(file)
      && forall c :: c in CommonFields ==> f[c] == Str(root.entries[c].text)
  {
    var common := CopyFields(root, CommonFields).value;
    assert "system" in CommonFields;
    forall c | c in CommonFields
      ensures c in root.entries && root.entries[c].Scalar? && common[c] == root.entries[c].text
    {
      assert GetStrOrThrow(Defined(root), c) == Success(common[c]);
    }
    var count := PaletteColorsCount(common["system"]);
    var paletteNode := Lookup(Defined(root), "palette").value;
    var palette := PaletteEntries(paletteNode, KeyNames(count)).value;
    ThemeObjectFields(file, common, palette);
  }

  /** For a known colour system a loaded theme holds exactly `count`
      colours base00, base01, ..., each a valid hex colour stored verbatim
      both at the top level and under "palette". */
  lemma ThemePalette(root: Node, file: string)
    requires ThemeJson(root, file).Success?
    ensures root.Mapping? && "system" in root.entries && root.entries["system"].Scalar?
    ensures var f := ThemeJson(root, file).value.fields;
      var count := PaletteColorsCount(root.entries["system"].text);
      && f["palette"].Obj? && |f["palette"].fields| == count
      && (forall i :: 0 <= i < count ==>
            && KeyName(i) in f["palette"].fields
            && "palette" in root.entries && root.entries["palette"].Mapping?
            && KeyName(i) in root.entries["palette"].entries
            && root.entries["palette"].entries[KeyName(i)].Scalar?
            && var text := root.entries["palette"].entries[KeyName(i)].text;
            && IsValidHexColor(text)
            && f["palette"].fields[KeyName(i)] == Str(text)
            && f[KeyName(i)] == Str(text))
  {
    ThemeCommonFields(root, file);
    var common := CopyFields(root, CommonFields).value;
    assert "system" in CommonFields;
    assert GetStrOrThrow(Defined(root), "system") == Success(common["system"]);
    var count := PaletteColorsCount(common["system"]);
    var paletteNode := Lookup(Defined(root), "palette").value;
    var palette := PaletteEntries(paletteNode, KeyNames(count)).value;
    ThemeObjectFields(file, common, palette);
    KeyNamesCount(count);
    assert |StrFields(palette).Keys| == count;
    forall i | 0 <= i < count
      ensures KeyName(i) in palette && GetStrOrThrow(paletteNode, KeyName(i)) == Success(palette[KeyName(i)])
    {
      assert KeyNames(count)[i] == KeyName(i);
    }
  }

  /** A colour system other than base16 and base24 is not an error: the
      theme loads with an empty palette, whatever the palette node holds. */
  lemma UnknownSystemLoadsEmptyPalette(root: Node, file: string)
    requires root.Mapping?
    requires forall c :: c in CommonFields ==> c in root.entries && root.entries[c].Scalar?
    requires root.entries["system"].text != "base16" && root.entries["system"].text != "base24"
    ensures ThemeJson(root, file).Success?
    ensures ThemeJson(root, file).value.fields["palette"] == Obj(map[])
  {
    CopyFieldsSucceed(root, CommonFields);
    var common := CopyFields(root, CommonFields).value;
    assert "system" in CommonFields;
    assert GetStrOrThrow(Defined(root), "system") == Success(common["system"]);
    assert PaletteColorsCount(common["system"]) == 0;
    assert PaletteEntries(Lookup(Defined(root), "palette").value, KeyNames(0)) == Success(map[]);
    assert StrFields(map[]) == map[];
  }

  /** The first of system, name, author, variant that is missing from the
      document is reported by name. */
  lemma MissingFieldIsNamed(root: Node, file: string, j: nat)
    requires root.Mapping? && j < |CommonFields|
    requires forall i :: 0 <= i < j ==> CommonFields[i] in root.entries && root.entries[CommonFields[i]].Scalar?
    requires CommonFields[j] !in root.entries
    ensures ThemeJson(root, file) == Failure(RuntimeError(NotFound(CommonFields[j])))
  {
    CopyFieldsSucceed(root, CommonFields[..j]);
    assert CommonFields[..j + 1][..j] == CommonFields[..j];
    CopyFieldsFailureExtends(root, CommonFields, j + 1);
  }

  /** Colours are checked in order and the first one that fails
      isValidHexColor stops the load with an error quoting it. */
  lemma FirstInvalidColorStops(root: Node, file: string, j: nat)
    requires root.Mapping?
    requires forall c :: c in CommonFields ==> c in root.entries && root.entries[c].Scalar?
    requires j < PaletteColorsCount(root.entries["system"].text)
    requires "palette" in root.entries && root.entries["palette"].Mapping?
    requires var p := root.entries["palette"].entries;
      && (forall i :: 0 <= i < j ==> KeyName(i) in p && p[KeyName(i)].Scalar? && IsValidHexColor(p[KeyName(i)].text))
      && KeyName(j) in p && p[KeyName(j)].Scalar? && !IsValidHexColor(p[KeyName(j)].text)
    ensures ThemeJson(root, file) == Failure(RuntimeError(InvalidColor(root.entries["palette"].entries[KeyName(j)].text)))
  {
    var count := PaletteColorsCount(root.entries["system"].text);
    var paletteNode := Defined(root.entries["palette"]);
    assert Lookup(Defined(root), "palette").value == paletteNode;
    PaletteEntriesFirstFailure(paletteNode, j, count);
    var palette := PaletteEntries(paletteNode, KeyNames(count));
    assert palette.Failure?;
    PaletteDecidesTheme(root, file);
    assert ThemeJson(root, file) == Failure(palette.error);
  }

  /** Once the common fields are read, a failing colour loop is the
      outcome of the whole load. */
  lemma PaletteDecidesTheme(root: Node, file: string)
    requires root.Mapping?
    requires forall c :: c in CommonFields ==> c in root.entries && root.entries[c].Scalar?
    ensures var count := PaletteColorsCount(root.entries["system"].text);
      var palette := PaletteEntries(Lookup(Defined(root), "palette").value, KeyNames(count));
      palette.Failure? ==> ThemeJson(root, file) == Failure(palette.error)
  {
    CopyFieldsSucceed(root, CommonFields);
    var common := CopyFields(root, CommonFields).value;
    assert "system" in CommonFields;
    assert GetStrOrThrow(Defined(root), "system") == Success(common["system"]);
  }

  /** The colour loop stops at the first colour isValidHexColor rejects. */
  lemma PaletteEntriesFirstFailure(paletteNode: Ref, j: nat, n: nat)
    requires j < n <= 256 && paletteNode.Defined? && paletteNode.node.Mapping?
    requires var p := paletteNode.node.entries;
      && (forall i :: 0 <= i < j ==> KeyName(i) in p && p[KeyName(i)].Scalar? && IsValidHexColor(p[KeyName(i)].text))
      && KeyName(j) in p && p[KeyName(j)].Scalar? && !IsValidHexColor(p[KeyName(j)].text)
    ensures PaletteEntries(paletteNode, KeyNames(n)) == Failure(RuntimeError(InvalidColor(paletteNode.node.entries[KeyName(j)].text)))
  {
    forall k | k in KeyNames(j)
      ensures k in paletteNode.node.entries && paletteNode.node.entries[k].Scalar?
              && IsValidHexColor(paletteNode.node.entries[k].text)
    {
      var i :| 0 <= i < j && KeyNames(j)[i] == k;
    }
    PaletteEntriesSucceed(paletteNode, KeyNames(j));
    var hex := paletteNode.node.entries[KeyName(j)].text;
    assert GetStrOrThrow(paletteNode, KeyName(j)) == Success(hex);
    PaletteNextFails(paletteNode, j, n);
  }

  /** The first `k` of the first `n` key names are the first `k` key names. */
  lemma {:induction false} KeyNamesPrefix(k: nat, n: nat)
    requires k <= n <= 256
    ensures KeyNames(n)[..k] == KeyNames(k)
  {
    if k < n {
      KeyNamesPrefix(k, n - 1);
      assert KeyNames(n)[..n - 1] == KeyNames(n - 1);
    }
  }
}
