/** basexx_theme_parse_from_yaml and basexx_theme_parse_from_yaml_content
    (code/basexx_theme.cpp): reads a base16/base24 scheme into a theme value
    whose palette is the ordered list of parsed colours. Errors the function
    detects are returned; YAML exceptions escape it and are caught by the
    _content wrapper. */
module BaseXXThemes {
  import opened Wrappers
  import opened Yaml
  import opened Colors
  import opened PaletteKeys

  datatype BaseXXTheme = BaseXXTheme(
    name: string, author: string, variant: string, system: string, palette: seq<Color>)

  function UnknownVariant(variant: string): string {
    "unknown theme variant value (" + variant + ")"
  }

  function UnknownSystem(system: string): string {
    "unknown theme system value (" + system + ")"
  }

  /** The start of the error for an unparseable colour; the reason the colour
      parser gives follows it. */
  function UnparseableColor(hex: string): string {
    "can' parse color '" + hex + "', "
  }

  /** The colours under `names`, parsed, in list order; the first missing
      string throws and the first unparseable one is an error. */
  function ParseColors(paletteNode: Ref, names: seq<string>): (r: Attempt<seq<Color>>)
    ensures r.Value? ==> |r.value| == |names|
    ensures r.Value? ==> forall i :: 0 <= i < |names| ==>
              GetString(paletteNode, names[i]).Success?
              && ParseHex(GetString(paletteNode, names[i]).value) == Some(r.value[i])
  {
    if names == [] then Value([])
    else
      var colors :- ParseColors(paletteNode, names[..|names| - 1]);
      var hex :- Rethrow(GetString(paletteNode, names[|names| - 1]));
      match ParseHex(hex)
      case None => Unexpected(UnparseableColor(hex))
      case Some(c) => Value(colors + [c])
  }

  /** What basexx_theme_parse_from_yaml does with the document `root`. */
  function ParsedTheme(root: Node): Attempt<BaseXXTheme> {
    var name :- Rethrow(GetString(Defined(root), "name"));
    var author :- Rethrow(GetString(Defined(root), "author"));
    var variant :- Rethrow(GetString(Defined(root), "variant"));
    if variant != "dark" && variant != "light" then Unexpected(UnknownVariant(variant))
    else
      var system :- Rethrow(GetString(Defined(root), "system"));
      if system != "base16" && system != "base24" then Unexpected(UnknownSystem(system))
      else
        var colors := if system == "base16" then Base16Keys else Base24Keys;
        var paletteNode := Lookup(Defined(root), "palette").value;
        var palette :- ParseColors(paletteNode, colors);
        Value(BaseXXTheme(name, author, variant, system, palette))
  }

  lemma {:induction false} ParseColorsFailureExtends(paletteNode: Ref, names: seq<string>, k: nat)
    requires k <= |names| && ParseColors(paletteNode, names[..k]).IsFailure()
    ensures ParseColors(paletteNode, names) == ParseColors(paletteNode, names[..k])
    decreases |names| - k
  {
    if k < |names| {
      assert names[..k + 1][..k] == names[..k];
      ParseColorsFailureExtends(paletteNode, names, k + 1);
    } else {
      assert names[..k] == names;
    }
  }

  /** The palette loop of basexx_theme_parse_from_yaml: one parsed colour is
      appended per listed name, and the first failure ends the call. */
  method ParsePalette(yamlPaletteNode: Ref, colors: seq<string>) returns (r: Attempt<seq<Color>>)
    ensures r == ParseColors(yamlPaletteNode, colors)
  {
    var palette: seq<Color> := [];
    for i := 0 to |colors|
      invariant ParseColors(yamlPaletteNode, colors[..i]) == Value(palette)
    {
      var hexColorStr := GetString(yamlPaletteNode, colors[i]);
      assert colors[..i + 1][..i] == colors[..i];
      if hexColorStr.Failure? {
        ParseColorsFailureExtends(yamlPaletteNode, colors, i + 1);
        return Thrown(hexColorStr.error);
      }
      var rc := ParseHex(hexColorStr.value);
      if rc.None? {
        ParseColorsFailureExtends(yamlPaletteNode, colors, i + 1);
        return Unexpected(UnparseableColor(hexColorStr.value));
      }
      palette := palette + [rc.value];
    }
    assert colors[..|colors|] == colors;
    return Value(palette);
  }

  /** basexx_theme_parse_from_yaml: the result is filled field by field, the
      variant is checked before the system is read. */
  method ParseFromYaml(yaml: Node) returns (r: Attempt<BaseXXTheme>)
    ensures r == ParsedTheme(yaml)
  {
    var name := GetString(Defined(yaml), "name");
    if name.Failure? { return Thrown(name.error); }
    var author := GetString(Defined(yaml), "author");
    if author.Failure? { return Thrown(author.error); }
    var variant := GetString(Defined(yaml), "variant");
    if variant.Failure? { return Thrown(variant.error); }
    if variant.value != "dark" && variant.value != "light" {
      return Unexpected(UnknownVariant(variant.value));
    }
    var system := GetString(Defined(yaml), "system");
    if system.Failure? { return Thrown(system.error); }

    var colors: seq<string>;
    if system.value == "base16" {
      colors := Base16Keys;
    } else if system.value == "base24" {
      colors := Base24Keys;
    } else {
      return Unexpected(UnknownSystem(system.value));
    }

    var yamlPaletteNode := Lookup(Defined(yaml), "palette").value;
    var palette := ParsePalette(yamlPaletteNode, colors);
    if palette.Unexpected? {
      return Unexpected(palette.message);
    } else if palette.Thrown? {
      return Thrown(palette.error);
    }
    return Value(BaseXXTheme(name.value, author.value, variant.value, system.value, palette.value));
  }

  /** basexx_theme_parse_from_yaml_content: YAML::Load of the content (given
      here as its outcome `loaded`) and the parse, with every YAML exception
      turned into its message. */
  method ParseFromYamlContent(loaded: Result<Node, YamlError>) returns (r: Result<BaseXXTheme, string>)
    ensures loaded.Failure? ==> r == Failure(loaded.error.What())
    ensures loaded.Success? ==> match ParsedTheme(loaded.value)
      case Value(t) => r == Success(t)
      case Unexpected(m) => r == Failure(m)
      case Thrown(e) => r == Failure(e.What())
  {
    if loaded.Failure? {
      return Failure(loaded.error.What());
    }
    var parsed := ParseFromYaml(loaded.value);
    match parsed
    case Value(t) => r := Success(t);
    case Unexpected(m) => r := Failure(m);
    case Thrown(e) => r := Failure(e.What());
  }

  /** The palette keys of a colour system. */
  function KeysOf(system: string): seq<string> {
    if system == "base16" then Base16Keys else Base24Keys
  }

  /** A palette node holding a string under every name that parses yields
      the parsed colours. */
  lemma {:induction false} ParseColorsSucceed(paletteNode: Ref, names: seq<string>)
    requires paletteNode.Defined? && paletteNode.node.Mapping?
    requires forall k :: k in names ==>
               && k in paletteNode.node.entries && paletteNode.node.entries[k].Scalar?
               && ParseHex(paletteNode.node.entries[k].text).Some?
    ensures ParseColors(paletteNode, names).Value?
  {
    if names != [] {
      ParseColorsSucceed(paletteNode, names[..|names| - 1]);
    }
  }

  /** A variant other than dark or light is rejected before the system and
      the palette are looked at. */
  lemma UnknownVariantRejected(root: Node)
    requires root.Mapping? && forall n :: n in ["name", "author", "variant"] ==> n in root.entries && root.entries[n].Scalar?
    requires root.entries["variant"].text != "dark" && root.entries["variant"].text != "light"
    ensures ParsedTheme(root) == Unexpected(UnknownVariant(root.entries["variant"].text))
  {
    assert "name" in ["name", "author", "variant"];
    assert "author" in ["name", "author", "variant"];
    assert "variant" in ["name", "author", "variant"];
  }

  /** With a valid variant, a system other than base16 and base24 is
      rejected by name. */
  lemma UnknownSystemRejected(root: Node)
    requires root.Mapping? && forall n :: n in ["name", "author", "variant", "system"] ==> n in root.entries && root.entries[n].Scalar?
    requires root.entries["variant"].text == "dark" || root.entries["variant"].text == "light"
    requires root.entries["system"].text != "base16" && root.entries["system"].text != "base24"
    ensures ParsedTheme(root) == Unexpected(UnknownSystem(root.entries["system"].text))
  {
    assert "name" in ["name", "author", "variant", "system"];
    assert "author" in ["name", "author", "variant", "system"];
    assert "variant" in ["name", "author", "variant", "system"];
    assert "system" in ["name", "author", "variant", "system"];
  }

  /** A parsed theme holds the document's name, author, variant and system
      verbatim; its variant is dark or light, its system base16 or base24, and
      its palette has one colour per key of that system (16 or 24), the i-th
      being the parsed string under the i-th key. */
  lemma ParsedThemeContents(root: Node)
    requires ParsedTheme(root).Value?
    ensures root.Mapping?
    ensures "name" in root.entries && root.entries["name"].Scalar?
    ensures "author" in root.entries && root.entries["author"].Scalar?
    ensures "variant" in root.entries && root.entries["variant"].Scalar?
    ensures "system" in root.entries && root.entries["system"].Scalar?
    ensures var t := ParsedTheme(root).value;
      && t.name == root.entries["name"].text && t.author == root.entries["author"].text
      && t.variant == root.entries["variant"].text && t.system == root.entries["system"].text
      && (t.variant == "dark" || t.variant == "light")
      && (t.system == "base16" || t.system == "base24")
      && |t.palette| == (if t.system == "base16" then 16 else 24)
  {
    ParsedThemeParts(root);
    var system := root.entries["system"].text;
    assert |KeysOf(system)| == (if system == "base16" then 16 else 24);
  }

  /** A parsed theme is built from the four strings of the document and the
      colours parsed under the keys of its system. */
  lemma ParsedThemeParts(root: Node)
    requires ParsedTheme(root).Value?
    ensures root.Mapping?
    ensures "name" in root.entries && root.entries["name"].Scalar?
    ensures "author" in root.entries && root.entries["author"].Scalar?
    ensures "variant" in root.entries && root.entries["variant"].Scalar?
    ensures "system" in root.entries && root.entries["system"].Scalar?
    ensures var e := root.entries;
      var colors := ParseColors(Lookup(Defined(root), "palette").value, KeysOf(e["system"].text));
      && (e["variant"].text == "dark" || e["variant"].text == "light")
      && (e["system"].text == "base16" || e["system"].text == "base24")
      && colors.Value?
      && ParsedTheme(root).value == BaseXXTheme(e["name"].text, e["author"].text, e["variant"].text, e["system"].text, colors.value)
  {
    assert GetString(Defined(root), "name").Success?;
    assert GetString(Defined(root), "author").Success?;
    assert GetString(Defined(root), "variant").Success?;
    assert GetString(Defined(root), "system").Success?;
  }

  /** The palette of a parsed theme lists, in key order, the colours parsed
      from the strings of the document's palette mapping. */
  lemma ParsedThemePalette(root: Node)
    requires ParsedTheme(root).Value?
    ensures root.Mapping? && "system" in root.entries && root.entries["system"].Scalar?
    ensures var keys := KeysOf(root.entries["system"].text);
      var t := ParsedTheme(root).value;
      && "palette" in root.entries && root.entries["palette"].Mapping?
      && |t.palette| == |keys|
      && forall i :: 0 <= i < |keys| ==>
           var p := root.entries["palette"].entries;
           && keys[i] in p && p[keys[i]].Scalar?
           && ParseHex(p[keys[i]].text) == Some(t.palette[i])
  {
    var name := GetString(Defined(root), "name").value;
    var author := GetString(Defined(root), "author").value;
    var variant := GetString(Defined(root), "variant").value;
    var system := GetString(Defined(root), "system").value;
    var keys := KeysOf(system);
    var paletteNode := Lookup(Defined(root), "palette").value;
    var palette := ParseColors(paletteNode, keys).value;
    assert ParsedTheme(root).value == BaseXXTheme(name, author, variant, system, palette);
    assert GetString(paletteNode, keys[0]).Success?;
  }

  /** A document with string name, author, variant (dark or light) and system
      (base16 or base24) and a palette mapping holding a parseable string
      under every key of that system parses. */
  lemma WellFormedThemeParses(root: Node)
    requires root.Mapping? && forall n :: n in ["name", "author", "variant", "system"] ==> n in root.entries && root.entries[n].Scalar?
    requires root.entries["variant"].text == "dark" || root.entries["variant"].text == "light"
    requires root.entries["system"].text == "base16" || root.entries["system"].text == "base24"
    requires "palette" in root.entries && root.entries["palette"].Mapping?
    requires var p := root.entries["palette"].entries;
      forall k :: k in KeysOf(root.entries["system"].text) ==>
        k in p && p[k].Scalar? && ParseHex(p[k].text).Some?
    ensures ParsedTheme(root).Value?
  {
    var paletteNode := Lookup(Defined(root), "palette").value;
    assert paletteNode == Defined(root.entries["palette"]);
    ParseColorsSucceed(paletteNode, KeysOf(root.entries["system"].text));
    PaletteDecides(root);
  }

  /** The first `j` names all hold parseable strings, so the loop gets
      past them. */
  lemma {:induction false} ParseColorsPrefix(paletteNode: Ref, names: seq<string>, j: nat)
    requires j <= |names| && paletteNode.Defined? && paletteNode.node.Mapping?
    requires var m := paletteNode.node.entries;
      forall i :: 0 <= i < j ==> names[i] in m && m[names[i]].Scalar? && ParseHex(m[names[i]].text).Some?
    ensures ParseColors(paletteNode, names[..j]).Value?
  {
    if j > 0 {
      ParseColorsPrefix(paletteNode, names, j - 1);
      assert names[..j][..j - 1] == names[..j - 1];
    }
  }

  /** The loop stops at the first name whose string does not parse. */
  lemma ParseColorsFirstFailure(paletteNode: Ref, names: seq<string>, j: nat)
    requires j < |names| && paletteNode.Defined? && paletteNode.node.Mapping?
    requires var m := paletteNode.node.entries;
      && (forall i :: 0 <= i < j ==> names[i] in m && m[names[i]].Scalar? && ParseHex(m[names[i]].text).Some?)
      && names[j] in m && m[names[j]].Scalar? && ParseHex(m[names[j]].text).None?
    ensures var m := paletteNode.node.entries;
      ParseColors(paletteNode, names) == Unexpected(UnparseableColor(m[names[j]].text))
  {
    ParseColorsPrefix(paletteNode, names, j);
    ParseColorsStopsAt(paletteNode, names, j);
    ParseColorsFailureExtends(paletteNode, names, j + 1);
  }

  /** After a successful prefix, a name whose string does not parse ends
      the loop with an error quoting the string. */
  lemma ParseColorsStopsAt(paletteNode: Ref, names: seq<string>, j: nat)
    requires j < |names| && ParseColors(paletteNode, names[..j]).Value?
    requires GetString(paletteNode, names[j]).Success? && ParseHex(GetString(paletteNode, names[j]).value).None?
    ensures ParseColors(paletteNode, names[..j + 1]) == Unexpected(UnparseableColor(GetString(paletteNode, names[j]).value))
  {
    assert names[..j + 1][..j] == names[..j];
  }

  /** Once name, author, variant and system pass their checks, the outcome
      is that of parsing the palette. */
  lemma PaletteDecides(root: Node)
    requires root.Mapping? && forall n :: n in ["name", "author", "variant", "system"] ==> n in root.entries && root.entries[n].Scalar?
    requires root.entries["variant"].text == "dark" || root.entries["variant"].text == "light"
    requires root.entries["system"].text == "base16" || root.entries["system"].text == "base24"
    ensures var colors := ParseColors(Lookup(Defined(root), "palette").value, KeysOf(root.entries["system"].text));
      && (colors.IsFailure() ==> ParsedTheme(root) == colors.PropagateFailure())
      && (ParsedTheme(root).Value? <==> colors.Value?)
  {
    assert "name" in ["name", "author", "variant", "system"];
    assert "author" in ["name", "author", "variant", "system"];
    assert "variant" in ["name", "author", "variant", "system"];
    assert "system" in ["name", "author", "variant", "system"];
    var name, author := root.entries["name"].text, root.entries["author"].text;
    var variant, system := root.entries["variant"].text, root.entries["system"].text;
    assert GetString(Defined(root), "name") == Success(name);
    assert GetString(Defined(root), "author") == Success(author);
    assert GetString(Defined(root), "variant") == Success(variant);
    assert GetString(Defined(root), "system") == Success(system);
    var colors := ParseColors(Lookup(Defined(root), "palette").value, KeysOf(system));
    if colors.Value? {
      assert ParsedTheme(root) == Value(BaseXXTheme(name, author, variant, system, colors.value));
    } else {
      assert ParsedTheme(root) == colors.PropagateFailure();
    }
  }

  /** The palette keys are parsed in list order; the first whose string does
      not parse ends the call with an error quoting that string, and no
      partial theme is returned. */
  lemma FirstUnparseableColorAborts(root: Node, j: nat)
    requires root.Mapping? && forall n :: n in ["name", "author", "variant", "system"] ==> n in root.entries && root.entries[n].Scalar?
    requires root.entries["variant"].text == "dark" || root.entries["variant"].text == "light"
    requires root.entries["system"].text == "base16" || root.entries["system"].text == "base24"
    requires "palette" in root.entries && root.entries["palette"].Mapping?
    requires j < |KeysOf(root.entries["system"].text)|
    requires var keys := KeysOf(root.entries["system"].text);
      var p := root.entries["palette"].entries;
      && (forall i :: 0 <= i < j ==> keys[i] in p && p[keys[i]].Scalar? && ParseHex(p[keys[i]].text).Some?)
      && keys[j] in p && p[keys[j]].Scalar? && ParseHex(p[keys[j]].text).None?
    ensures var key := KeysOf(root.entries["system"].text)[j];
      ParsedTheme(root) == Unexpected(UnparseableColor(root.entries["palette"].entries[key].text))
  {
    var keys := KeysOf(root.entries["system"].text);
    var paletteNode := Lookup(Defined(root), "palette").value;
    assert paletteNode == Defined(root.entries["palette"]);
    ParseColorsFirstFailure(paletteNode, keys, j);
    PaletteDecides(root);
  }
}
