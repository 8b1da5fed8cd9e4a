/** loadBaseXXThemeFromYAMLFile (code/theme.cpp): reads a base16/base24
    scheme into a JSON object holding name, author, variant and the palette
    strings, each checked with parseColorFromHexStr. */
module BaseTheme {
  import opened Wrappers
  import opened Yaml
  import opened Json
  import Colors
  import opened PaletteKeys

  function UnknownSystem(system: string): string {
    "unknown palette color system ('" + system + "')"
  }

  function InvalidColorValue(key: string, hex: string): string {
    "invalid color value '" + key + "' ('" + hex + "')"
  }

  /** The root entries copied into the result, in this order. */
  const Entries: seq<string> := ["name", "author", "variant"]

  /** The key list of a colour system; any system other than base16 and
      base24 is an error. */
  function SelectKeys(system: string): (r: Result<seq<string>, Exception>)
    ensures r == Success(Base16Keys) <==> system == "base16"
    ensures r == Success(Base24Keys) <==> system == "base24"
    ensures r.Failure? <==> system != "base16" && system != "base24"
    ensures r.Failure? ==> r.error == RuntimeError(UnknownSystem(system))
  {
    if system == "base16" then Success(Base16Keys)
    else if system == "base24" then Success(Base24Keys)
    else Failure(RuntimeError(UnknownSystem(system)))
  }

  /** `root[entry].as<std::string>()` for each of `names`; the first failure wins. */
  function CopyEntries(root: Node, names: seq<string>): (r: Result<map<string, string>, Exception>)
    ensures r.Success? ==> r.value.Keys == set n | n in names
    ensures r.Success? ==> forall n :: n in names ==> GetString(Defined(root), n) == Success(r.value[n])
  {
    if names == [] then Success(map[])
    else
      var m :- CopyEntries(root, names[..|names| - 1]);
      var v :- Throw(GetString(Defined(root), names[|names| - 1]));
      assert forall n :: n in names ==> n in names[..|names| - 1] || n == names[|names| - 1];
      Success(m[names[|names| - 1] := v])
  }

  /** The palette strings under `keys`, each of which parseColorFromHexStr
      must accept; the first missing or unparseable one is an error. */
  function PaletteStrings(paletteNode: Ref, keys: seq<string>): (r: Result<map<string, string>, Exception>)
    ensures r.Success? ==> r.value.Keys == set k | k in keys
    ensures r.Success? ==> forall k :: k in keys ==>
              GetString(paletteNode, k) == Success(r.value[k]) && Colors.ParseHex(r.value[k]).Some?
  {
    if keys == [] then Success(map[])
    else
      var m :- PaletteStrings(paletteNode, keys[..|keys| - 1]);
      var key := keys[|keys| - 1];
      var hex :- Throw(GetString(paletteNode, key));
      assert forall k :: k in keys ==> k in keys[..|keys| - 1] || k == key;
      if Colors.ParseHex(hex).None? then Failure(RuntimeError(InvalidColorValue(key, hex)))
      else Success(m[key := hex])
  }

  /** The object loadBaseXXThemeFromYAMLFile builds. */
  function BaseThemeObject(entries: map<string, string>, palette: map<string, string>): Json {
    Obj(StrFields(entries)["palette" := Obj(StrFields(palette))])
  }

  /** Where each input of BaseThemeObject ends up. */
  lemma BaseThemeObjectFields(entries: map<string, string>, palette: map<string, string>)
    requires entries.Keys == set n | n in Entries
    ensures var f := BaseThemeObject(entries, palette).fields;
      && f.Keys == {"name", "author", "variant", "palette"}
      && (forall n :: n in entries ==> f[n] == Str(entries[n]))
      && f["palette"] == Obj(StrFields(palette))
  {
    assert entries.Keys == {"name", "author", "variant"};
  }

  /** What loadBaseXXThemeFromYAMLFile returns or throws for the document `root`. */
  function BaseThemeJson(root: Node): Result<Json, Exception> {
    var entries :- CopyEntries(root, Entries);
    assert "name" in Entries;
    assert GetString(Defined(root), "name") == Success(entries["name"]);
    var system :- Throw(GetString(Defined(root), "system"));
    var keys :- SelectKeys(system);
    var paletteNode := Lookup(Defined(root), "palette").value;
    var palette :- PaletteStrings(paletteNode, keys);
    Success(BaseThemeObject(entries, palette))
  }

  lemma {:induction false} CopyEntriesFailureExtends(root: Node, names: seq<string>, k: nat)
    requires k <= |names| && CopyEntries(root, names[..k]).Failure?
    ensures CopyEntries(root, names) == CopyEntries(root, names[..k])
    decreases |names| - k
  {
    if k < |names| {
      assert names[..k + 1][..k] == names[..k];
      CopyEntriesFailureExtends(root, names, k + 1);
    } else {
      assert names[..k] == names;
    }
  }

  lemma {:induction false} PaletteFailureExtends(paletteNode: Ref, keys: seq<string>, k: nat)
    requires k <= |keys| && PaletteStrings(paletteNode, keys[..k]).Failure?
    ensures PaletteStrings(paletteNode, keys) == PaletteStrings(paletteNode, keys[..k])
    decreases |keys| - k
  {
    if k < |keys| {
      assert keys[..k + 1][..k] == keys[..k];
      PaletteFailureExtends(paletteNode, keys, k + 1);
    } else {
      assert keys[..k] == keys;
    }
  }

  /** loadBaseXXThemeFromYAMLFile on an already loaded document; exceptions
      are returned as failures. */
  method LoadBaseXXThemeFromYAMLFile(root: Node) returns (r: Result<Json, Exception>)
    ensures r == BaseThemeJson(root)
  {
    var entries, jsonRootNode := CopyEntriesLoop(root, Entries);
    if entries.Failure? {
      return Failure(entries.error);
    }
    assert "name" in Entries;
    assert GetString(Defined(root), "name") == Success(entries.value["name"]);

    var system := GetString(Defined(root), "system");
    if system.Failure? {
      return Failure(YamlException(system.error));
    }
    var paletteColors: seq<string>;
    if system.value == "base16" {
      paletteColors := Base16Keys;
    } else if system.value == "base24" {
      paletteColors := Base24Keys;
    } else {
      return Failure(RuntimeError(UnknownSystem(system.value)));
    }

    var yamlPaletteNode := Lookup(Defined(root), "palette").value;
    var palette := CopyPalette(yamlPaletteNode, paletteColors);
    if palette.Failure? {
      return Failure(palette.error);
    }
    jsonRootNode := jsonRootNode["palette" := Obj(StrFields(palette.value))];
    return Success(Obj(jsonRootNode));
  }

  /** The entry loop of loadBaseXXThemeFromYAMLFile over `names` (called
      with Entries): each entry is stored in the JSON object as soon as it is
      read. */
  method CopyEntriesLoop(root: Node, names: seq<string>) returns (r: Result<map<string, string>, Exception>, jsonRootNode: map<string, Json>)
    ensures r == CopyEntries(root, names)
    ensures r.Success? ==> jsonRootNode == StrFields(r.value)
  {
    jsonRootNode := map[];
    var entries: map<string, string> := map[];
    for k := 0 to |names|
      invariant CopyEntries(root, names[..k]) == Success(entries)
      invariant jsonRootNode == StrFields(entries)
    {
      var entry := names[k];
      var value := GetString(Defined(root), entry);
      if value.Failure? {
        CopyEntriesNextFails(root, names, k);
        return Failure(YamlException(value.error)), jsonRootNode;
      }
      CopyEntriesNext(root, names, k, entries, value.value);
      StrFieldsStore(entries, entry, value.value);
      jsonRootNode := jsonRootNode[entry := Str(value.value)];
      entries := entries[entry := value.value];
    }
    assert names[..|names|] == names;
    return Success(entries), jsonRootNode;
  }

  /** One step of the entry loop that reads a string. */
  lemma CopyEntriesNext(root: Node, names: seq<string>, k: nat, entries: map<string, string>, v: string)
    requires k < |names| && CopyEntries(root, names[..k]) == Success(entries)
    requires GetString(Defined(root), names[k]) == Success(v)
    ensures CopyEntries(root, names[..k + 1]) == Success(entries[names[k] := v])
  {
    assert names[..k + 1][..k] == names[..k];
  }

  /** One step of the entry loop that fails ends the loop with its exception. */
  lemma CopyEntriesNextFails(root: Node, names: seq<string>, k: nat)
    requires k < |names| && CopyEntries(root, names[..k]).Success?
    requires GetString(Defined(root), names[k]).Failure?
    ensures CopyEntries(root, names) == Failure(YamlException(GetString(Defined(root), names[k]).error))
  {
    assert names[..k + 1][..k] == names[..k];
    CopyEntriesFailureExtends(root, names, k + 1);
  }

  /** The palette loop of loadBaseXXThemeFromYAMLFile. */
  method CopyPalette(yamlPaletteNode: Ref, paletteColors: seq<string>) returns (r: Result<map<string, string>, Exception>)
    ensures r == PaletteStrings(yamlPaletteNode, paletteColors)
  {
    var jsonPaletteNode: map<string, string> := map[];
    for i := 0 to |paletteColors|
      invariant PaletteStrings(yamlPaletteNode, paletteColors[..i]) == Success(jsonPaletteNode)
    {
      var color := paletteColors[i];
      var hexColorStr := GetString(yamlPaletteNode, color);
      assert paletteColors[..i + 1][..i] == paletteColors[..i];
      if hexColorStr.Failure? {
        PaletteFailureExtends(yamlPaletteNode, paletteColors, i + 1);
        return Failure(YamlException(hexColorStr.error));
      }
      if Colors.ParseHex(hexColorStr.value).None? {
        PaletteFailureExtends(yamlPaletteNode, paletteColors, i + 1);
        return Failure(RuntimeError(InvalidColorValue(color, hexColorStr.value)));
      }
      PaletteStringsNext(yamlPaletteNode, paletteColors, i, jsonPaletteNode, hexColorStr.value);
      jsonPaletteNode := jsonPaletteNode[color := hexColorStr.value];
    }
    assert paletteColors[..|paletteColors|] == paletteColors;
    return Success(jsonPaletteNode);
  }

  lemma {:induction false} CopyEntriesSucceed(root: Node, names: seq<string>)
    requires root.Mapping?
    requires forall n :: n in names ==> n in root.entries && root.entries[n].Scalar?
    ensures CopyEntries(root, names).Success?
  {
    if names != [] {
      CopyEntriesSucceed(root, names[..|names| - 1]);
    }
  }

  lemma {:induction false} PaletteStringsSucceed(paletteNode: Ref, keys: seq<string>)
    requires paletteNode.Defined? && paletteNode.node.Mapping?
    requires forall k :: k in keys ==>
               && k in paletteNode.node.entries && paletteNode.node.entries[k].Scalar?
               && Colors.ParseHex(paletteNode.node.entries[k].text).Some?
    ensures PaletteStrings(paletteNode, keys).Success?
  {
    if keys != [] {
      PaletteStringsSucceed(paletteNode, keys[..|keys| - 1]);
    }
  }

  /** The keys the palette of a colour system must hold. */
  function KeysOf(system: string): seq<string> {
    if system == "base16" then Base16Keys else Base24Keys
  }

  /** A loaded theme was loaded from a mapping holding name, author,
      variant and system as strings; it holds name, author and variant
      verbatim (the variant is not checked) and, besides them, only "palette"
      (the system is not copied). */
  lemma BaseThemeFields(root: Node)
    requires BaseThemeJson(root).Success?
    ensures root.Mapping? && forall n :: n in Entries + ["system"] ==> n in root.entries && root.entries[n].Scalar?
    ensures var f := BaseThemeJson(root).value.fields;
      && f.Keys == {"name", "author", "variant", "palette"}
      && forall n :: n in Entries ==> f[n] == Str(root.entries[n].text)
  {
    var entries := CopyEntries(root, Entries).value;
    assert "name" in Entries;
    assert GetString(Defined(root), "name") == Success(entries["name"]);
    forall n | n in Entries
      ensures n in root.entries && root.entries[n].Scalar? && entries[n] == root.entries[n].text
    {
      assert GetString(Defined(root), n) == Success(entries[n]);
    }
    var system := GetString(Defined(root), "system").value;
    var keys := SelectKeys(system).value;
    var paletteNode := Lookup(Defined(root), "palette").value;
    var palette := PaletteStrings(paletteNode, keys).value;
    assert BaseThemeJson(root).value == BaseThemeObject(entries, palette);
    BaseThemeObjectFields(entries, palette);
  }

  /** A loaded theme is the object built from the copied entries and the
      palette strings of its (base16 or base24) system. */
  lemma BaseThemeParts(root: Node)
    requires BaseThemeJson(root).Success?
    ensures root.Mapping? && "system" in root.entries && root.entries["system"].Scalar?
    ensures var system := root.entries["system"].text;
      && (system == "base16" || system == "base24")
      && CopyEntries(root, Entries).Success?
      && PaletteStrings(Lookup(Defined(root), "palette").value, KeysOf(system)).Success?
      && BaseThemeJson(root).value == BaseThemeObject(CopyEntries(root, Entries).value,
                                        PaletteStrings(Lookup(Defined(root), "palette").value, KeysOf(system)).value)
  {
    var entries := CopyEntries(root, Entries).value;
    assert "name" in Entries;
    assert GetString(Defined(root), "name") == Success(entries["name"]);
    var system := GetString(Defined(root), "system").value;
    assert SelectKeys(system).value == KeysOf(system);
  }

  /** The palette of a loaded theme maps exactly the keys of the base16 or
      base24 list to their original, unnormalised strings, each of which
      parseColorFromHexStr accepts. */
  lemma BaseThemePalette(root: Node)
    requires BaseThemeJson(root).Success?
    ensures root.Mapping? && "system" in root.entries && root.entries["system"].Scalar?
    ensures var system := root.entries["system"].text;
      var f := BaseThemeJson(root).value.fields;
      && (system == "base16" || system == "base24")
      && "palette" in root.entries && root.entries["palette"].Mapping?
      && "palette" in f && f["palette"].Obj?
      && (forall k :: k in f["palette"].fields <==> k in KeysOf(system))
      && forall k :: k in KeysOf(system) ==>
           var p := root.entries["palette"].entries;
           && k in p && p[k].Scalar?
           && f["palette"].fields[k] == Str(p[k].text)
           && Colors.ParseHex(p[k].text).Some?
  {
    BaseThemeParts(root);
    var system := root.entries["system"].text;
    var paletteNode := Lookup(Defined(root), "palette").value;
    var palette := PaletteStrings(paletteNode, KeysOf(system)).value;
    BaseThemeObjectFields(CopyEntries(root, Entries).value, palette);
    PaletteStringsContents(paletteNode, KeysOf(system));
  }

  /** Successful palette strings come from a mapping holding every key as
      a parseable scalar, copied verbatim. */
  lemma PaletteStringsContents(paletteNode: Ref, keys: seq<string>)
    requires keys != [] && PaletteStrings(paletteNode, keys).Success?
    ensures paletteNode.Defined? && paletteNode.node.Mapping?
    ensures var m := PaletteStrings(paletteNode, keys).value;
      && m.Keys == set k | k in keys
      && forall k :: k in keys ==>
           var p := paletteNode.node.entries;
           && k in p && p[k].Scalar? && m[k] == p[k].text
           && Colors.ParseHex(p[k].text).Some?
  {
    var m := PaletteStrings(paletteNode, keys).value;
    assert keys[0] in keys;
    assert GetString(paletteNode, keys[0]) == Success(m[keys[0]]);
  }

  /** A document whose name, author, variant and system are strings, whose
      system is base16 or base24 and whose palette holds a parseable string
      under every key of that system loads, whatever the variant says. */
  lemma BaseThemeLoads(root: Node)
    requires root.Mapping? && forall n :: n in Entries + ["system"] ==> n in root.entries && root.entries[n].Scalar?
    requires root.entries["system"].text == "base16" || root.entries["system"].text == "base24"
    requires "palette" in root.entries && root.entries["palette"].Mapping?
    requires var p := root.entries["palette"].entries;
      forall k :: k in KeysOf(root.entries["system"].text) ==>
        k in p && p[k].Scalar? && Colors.ParseHex(p[k].text).Some?
    ensures BaseThemeJson(root).Success?
  {
    CopyEntriesSucceed(root, Entries);
    var entries := CopyEntries(root, Entries).value;
    assert "name" in Entries;
    assert GetString(Defined(root), "name") == Success(entries["name"]);
    var system := root.entries["system"].text;
    assert "system" in Entries + ["system"];
    assert GetString(Defined(root), "system") == Success(system);
    var paletteNode := Lookup(Defined(root), "palette").value;
    assert paletteNode == Defined(root.entries["palette"]);
    PaletteStringsSucceed(paletteNode, KeysOf(system));
  }

  /** A colour system other than base16 and base24 is an error naming it. */
  lemma UnknownSystemFails(root: Node)
    requires root.Mapping? && forall n :: n in Entries + ["system"] ==> n in root.entries && root.entries[n].Scalar?
    requires root.entries["system"].text != "base16" && root.entries["system"].text != "base24"
    ensures BaseThemeJson(root) == Failure(RuntimeError(UnknownSystem(root.entries["system"].text)))
  {
    CopyEntriesSucceed(root, Entries);
    var entries := CopyEntries(root, Entries).value;
    assert "name" in Entries;
    assert GetString(Defined(root), "name") == Success(entries["name"]);
    assert "system" in Entries + ["system"];
  }

  /** The first `j` names all hold parseable strings, so the loop gets
      past them. */
  lemma PaletteStringsPrefix(paletteNode: Ref, names: seq<string>, j: nat)
    requires j <= |names| && paletteNode.Defined? && paletteNode.node.Mapping?
    requires var m := paletteNode.node.entries;
      forall i :: 0 <= i < j ==> names[i] in m && m[names[i]].Scalar? && Colors.ParseHex(m[names[i]].text).Some?
    ensures PaletteStrings(paletteNode, names[..j]).Success?
  {
    var m := paletteNode.node.entries;
    forall k | k in names[..j]
      ensures k in m && m[k].Scalar? && Colors.ParseHex(m[k].text).Some?
    {
      var i :| 0 <= i < j && names[..j][i] == k;
    }
    PaletteStringsSucceed(paletteNode, names[..j]);
  }

  /** One step of the palette loop that reads a parseable string. */
  lemma PaletteStringsNext(paletteNode: Ref, keys: seq<string>, k: nat, m: map<string, string>, hex: string)
    requires k < |keys| && PaletteStrings(paletteNode, keys[..k]) == Success(m)
    requires GetString(paletteNode, keys[k]) == Success(hex) && Colors.ParseHex(hex).Some?
    ensures PaletteStrings(paletteNode, keys[..k + 1]) == Success(m[keys[k] := hex])
  {
    assert keys[..k + 1][..k] == keys[..k];
  }

  /** The loop stops at the first name whose string does not parse. */
  lemma PaletteStringsFirstFailure(paletteNode: Ref, names: seq<string>, j: nat)
    requires j < |names| && paletteNode.Defined? && paletteNode.node.Mapping?
    requires var m := paletteNode.node.entries;
      && (forall i :: 0 <= i < j ==> names[i] in m && m[names[i]].Scalar? && Colors.ParseHex(m[names[i]].text).Some?)
      && names[j] in m && m[names[j]].Scalar? && Colors.ParseHex(m[names[j]].text).None?
    ensures var m := paletteNode.node.entries;
      PaletteStrings(paletteNode, names) == Failure(RuntimeError(InvalidColorValue(names[j], m[names[j]].text)))
  {
    PaletteStringsPrefix(paletteNode, names, j);
    PaletteStringsStopsAt(paletteNode, names, j);
    PaletteFailureExtends(paletteNode, names, j + 1);
  }

  /** After a successful prefix, a key whose string does not parse ends the
      loop with an error naming it. */
  lemma PaletteStringsStopsAt(paletteNode: Ref, keys: seq<string>, j: nat)
    requires j < |keys| && PaletteStrings(paletteNode, keys[..j]).Success?
    requires GetString(paletteNode, keys[j]).Success? && Colors.ParseHex(GetString(paletteNode, keys[j]).value).None?
    ensures PaletteStrings(paletteNode, keys[..j + 1])
            == Failure(RuntimeError(InvalidColorValue(keys[j], GetString(paletteNode, keys[j]).value)))
  {
    assert keys[..j + 1][..j] == keys[..j];
  }

  /** Once the entries and the system are read and the system is known,
      the outcome is that of the palette loop. */
  lemma PaletteDecidesBaseTheme(root: Node)
    requires root.Mapping? && forall n :: n in Entries + ["system"] ==> n in root.entries && root.entries[n].Scalar?
    requires root.entries["system"].text == "base16" || root.entries["system"].text == "base24"
    ensures var palette := PaletteStrings(Lookup(Defined(root), "palette").value, KeysOf(root.entries["system"].text));
      palette.Failure? ==> BaseThemeJson(root) == Failure(palette.error)
  {
    CopyEntriesSucceed(root, Entries);
    var entries := CopyEntries(root, Entries).value;
    assert "name" in Entries;
    assert GetString(Defined(root), "name") == Success(entries["name"]);
    var system := root.entries["system"].text;
    assert "system" in Entries + ["system"];
    assert GetString(Defined(root), "system") == Success(system);
    assert SelectKeys(system) == Success(KeysOf(system));
  }

  /** The palette keys are checked in list order; the first whose string
      parseColorFromHexStr rejects stops the load with an error naming the
      key and quoting the string. */
  lemma FirstInvalidColorNamed(root: Node, j: nat)
    requires root.Mapping? && forall n :: n in Entries + ["system"] ==> n in root.entries && root.entries[n].Scalar?
    requires root.entries["system"].text == "base16" || root.entries["system"].text == "base24"
    requires "palette" in root.entries && root.entries["palette"].Mapping?
    requires j < |KeysOf(root.entries["system"].text)|
    requires var keys := KeysOf(root.entries["system"].text);
      var p := root.entries["palette"].entries;
      && (forall i :: 0 <= i < j ==> keys[i] in p && p[keys[i]].Scalar? && Colors.ParseHex(p[keys[i]].text).Some?)
      && keys[j] in p && p[keys[j]].Scalar? && Colors.ParseHex(p[keys[j]].text).None?
    ensures var key := KeysOf(root.entries["system"].text)[j];
      BaseThemeJson(root) == Failure(RuntimeError(InvalidColorValue(key, root.entries["palette"].entries[key].text)))
  {
    var keys := KeysOf(root.entries["system"].text);
    var paletteNode := Lookup(Defined(root), "palette").value;
    assert paletteNode == Defined(root.entries["palette"]);
    PaletteStringsFirstFailure(paletteNode, keys, j);
    PaletteDecidesBaseTheme(root);
  }
}
