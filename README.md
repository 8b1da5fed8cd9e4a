# walng colour-scheme core in Dafny

walng renders configuration files from templates using a base16 or base24
colour scheme. This project models the part of walng that reads and checks
colour schemes and its own configuration:

- parsing `#RRGGBB` colours and splitting them into RGB bytes (`code/colors.h`);
- the three scheme loaders:
  - `Theme::loadFromYAMLFile` (`code/Theme.cpp`), JSON with generated `baseXX` keys;
  - `loadBaseXXThemeFromYAMLFile` (`code/theme.cpp`), JSON with the key lists;
  - `basexx_theme_parse_from_yaml` (`code/basexx_theme.cpp`), a typed theme
    with a palette of parsed colours;
- the hook command substitution and the `hex`/`rgb` template callbacks
  (`code/generate.cpp`);
- loading the configuration (`code/config.cpp`) with tilde expansion and the
  XDG/HOME directory rules (`code/utils.cpp`);
- the curl error category (`code/net/error.h`).

The YAML document is a value of `Yaml.Node`. Lookups follow yaml-cpp's const
`operator[]`: a missing key gives a "zombie" node; indexing a zombie throws
InvalidNode; indexing a scalar throws BadSubscript. Exceptions are result
values:

- `Result<T, Exception>` for loaders that let them escape;
- `Attempt<T>` for loaders that return `std::expected` and can also throw.

Each loop of the source is a `method` proved equal to a recursive
specification function over prefixes. The lemmas state the source's promises
about that function.

Module layout, one file each:

- `Wrappers`: Option, Result and Outcome.
- `Text`: digit classes, hex and decimal digit strings.
- `Colors`: `code/colors.h`.
- `Yaml`: the yaml-cpp behaviour the loaders rely on.
- `Json`: the JSON values built.
- `PaletteKeys`: the base16/base24 key lists.
- `ThemeLoader`: `code/Theme.cpp`.
- `BaseTheme`: `code/theme.cpp`.
- `BaseXXThemes`: `code/basexx_theme.cpp`.
- `Generate`: `code/generate.cpp`.
- `Utils`: `code/utils.cpp`.
- `ConfigLoader`: `code/config.cpp`.
- `CurlErrors`: `code/net/error.h`.

The source has two behaviours worth knowing, and the model keeps both as
written:

- `parseColorFromStrippedHexStr` checks only the error code of
  `std::from_chars`, not how far it read. So `"#12zzzz"` is accepted as
  0x000012. In `code/Theme.cpp` the strict `isValidHexColor` rejects that
  string; `code/theme.cpp` accepts it. `code/basexx_theme.cpp` calls a colour
  parser from the `walng.color` module, which is not part of this model; the
  model uses `parseColorFromHexStr` in its place, so the model's
  `basexx_theme.cpp` path accepts it too.
- In `code/config.cpp`, `yaml["config"]["shell"].as<std::string>(default)`
  applies the default only when the `config` section exists. A document
  without that section throws InvalidNode.

## Model

| member | source | states |
|---|---|---|
| Colors.Color.AsRGB | code/colors.h:24-32 | the three bytes recompose the value's low 24 bits: `r*0x10000 + g*0x100 + b == value % 0x1000000` |
| Colors.Compare | code/colors.h:34 | the defaulted `<=>`: zero exactly for equal colours, negative/positive exactly when the value is smaller/larger |
| Colors.HexPrefixLength | code/colors.h:45 | the run of hex digits `from_chars` consumes: all digits, maximal (the next character is not a digit) |
| Colors.FromCharsHex32 | code/colors.h:44-46 | `from_chars` base 16: invalid_argument iff no leading digit; otherwise it consumes the whole digit run; success iff the value fits, and the value is that of the digit run |
| Colors.ParseStrippedHex | code/colors.h:40-50 | a colour iff six characters whose first is a hex digit; its value is that of the leading digits and at most 0xFFFFFF |
| Colors.ParseHex | code/colors.h:55-60 | a colour iff seven characters starting with '#' then a hex digit; the value is at most 0xFFFFFF |
| Colors.ParseHexStripsHash | code/colors.h:55-60 | after a leading '#' the rest is parsed as a stripped string; without '#' nothing is accepted |
| Colors.SixHexDigitsParse | code/colors.h:40-50 | six hex digits of either case parse to the number they denote |
| Colors.ParseExampleValid | code/colors.cpp:8 | `"#3233ae"` parses to 0x3233ae |
| Colors.ParseExampleInvalid | code/colors.cpp:9 | `"#xzxa2w"` is rejected |
| Colors.ParseAcceptsHexPrefix | code/colors.h:45-49 | the end pointer is not checked: `"12zzzz"` parses to 0x12 |
| Colors.AsRGBRecomposes | code/colors.h:24-32 | for a 24-bit colour the three bytes recompose the colour exactly |
| Text.DecimalRoundTrip | code/generate.cpp:39 | the decimal text `{}` writes for a byte reads back to that byte |
| Yaml.Lookup | code/Theme.cpp:17 | `parent[key]`: fails exactly on a zombie or scalar parent; defined exactly for a key of a mapping, and then it is that entry |
| Yaml.AsString | code/theme.cpp:31 | `as<std::string>()` succeeds exactly on a scalar, with its text |
| Yaml.AsStringOr | code/config.cpp:24 | `as<std::string>(fallback)`: the scalar's text, the fallback for any missing or non-scalar node |
| Yaml.GetString | code/theme.cpp:31 | `parent[key].as<std::string>()` succeeds exactly for a scalar under `key` of a mapping, with its text |
| Json.StrFieldsUpdate | code/Theme.cpp:66-67 | storing one more string member in an object of strings updates exactly that member |
| PaletteKeys.Base16IsPrefixOfBase24 | code/theme.cpp:17-22 | 16 and 24 keys, the base16 list is the start of the base24 list, no key repeats |
| ThemeLoader.GetStrOrThrow | code/Theme.cpp:16-22 | success exactly for a scalar child, with its text; the "node '…' not found" error exactly when the child is missing from an indexable node |
| ThemeLoader.PaletteColorsCount | code/Theme.cpp:24-32 | 16 iff base16, 24 iff base24, 0 iff anything else |
| ThemeLoader.KeyName | code/Theme.cpp:61 | the key for colour n is six characters starting with "base" |
| ThemeLoader.KeyNameFormat | code/Theme.cpp:61 | "base" and two upper-case hex digits denoting the colour number |
| ThemeLoader.KeyNameInjective | code/Theme.cpp:61 | different colour numbers get different key names |
| ThemeLoader.KeyNamesMatchLists | code/Theme.cpp:60-61 | the generated names are the base24 list (and for i < 16 the base16 list), in order |
| ThemeLoader.CopyFields | code/Theme.cpp:51-53 | on success the fields are exactly the given names, each holding what getStrOrThrow reads |
| ThemeLoader.PaletteEntries | code/Theme.cpp:59-68 | on success exactly the given key names, each holding its verbatim string, each a valid `#RRGGBB` |
| ThemeLoader.LoadFromYAMLFile | code/Theme.cpp:41-73 | the imperative loader equals the specification ThemeJson (first error wins) |
| ThemeLoader.CopyFieldsLoop | code/Theme.cpp:46-53 | the common-field loop equals CopyFields, and the object it fills holds the file name and those strings |
| ThemeLoader.CopyPalette | code/Theme.cpp:60-68 | the colour loop equals PaletteEntries over base00 .. base(n-1) |
| ThemeLoader.ThemeObjectFields | code/Theme.cpp:46-70 | where the file, the common fields and the colours land in the result object |
| ThemeLoader.IsValidHexColor | code/Theme.cpp:34-37 | isValidHexColor holds iff the text is exactly seven characters, '#' and six hex digits |
| ThemeLoader.ValidHexColorParses | code/Theme.cpp:34-37 | every valid string parses to its hex value; `"#12zzzz"` parses but is not valid |
| ThemeLoader.KeyNamesCount | code/Theme.cpp:60-61 | n colours give n distinct names |
| ThemeLoader.CopyFieldsSucceed | code/Theme.cpp:51-53 | string fields present in a mapping are all copied |
| ThemeLoader.PaletteEntriesSucceed | code/Theme.cpp:59-68 | a palette holding valid strings for all the keys is copied |
| ThemeLoader.KeyNameIsNotAField | code/Theme.cpp:48-70 | no colour key collides with file, palette or a common field |
| ThemeLoader.ThemeCommonFields | code/Theme.cpp:48-53 | a loaded theme holds the file name and the four common fields verbatim |
| ThemeLoader.ThemePalette | code/Theme.cpp:55-70 | a known system gives exactly count colours, verbatim, both at top level and under palette |
| ThemeLoader.UnknownSystemLoadsEmptyPalette | code/Theme.cpp:24-32 | an unknown system is not an error: the palette is empty |
| ThemeLoader.MissingFieldIsNamed | code/Theme.cpp:18-20 | the first missing common field is named in the error |
| ThemeLoader.FirstInvalidColorStops | code/Theme.cpp:62-65 | colours are checked in order and the first invalid one is quoted in the error |
| ThemeLoader.PaletteEntriesFirstFailure | code/Theme.cpp:60-65 | the colour loop fails with the first colour that isValidHexColor rejects |
| ThemeLoader.PaletteDecidesTheme | code/Theme.cpp:51-68 | once the common fields are read, a failing colour loop is the outcome of the load |
| BaseTheme.SelectKeys | code/theme.cpp:34-42 | base16 iff the base16 list, base24 iff the base24 list, otherwise the "unknown palette color system" error |
| BaseTheme.CopyEntries | code/theme.cpp:30-32 | on success exactly the names, each holding the verbatim string |
| BaseTheme.PaletteStrings | code/theme.cpp:44-52 | on success exactly the keys, each holding a verbatim string that parseColorFromHexStr accepts |
| BaseTheme.LoadBaseXXThemeFromYAMLFile | code/theme.cpp:26-56 | the imperative loader equals the specification BaseThemeJson |
| BaseTheme.CopyEntriesLoop | code/theme.cpp:28-32 | the entry loop equals CopyEntries, and the object it fills holds exactly those strings |
| BaseTheme.CopyPalette | code/theme.cpp:46-52 | the colour loop equals PaletteStrings |
| BaseTheme.BaseThemeObjectFields | code/theme.cpp:28-53 | where the entries and the palette land in the result object |
| BaseTheme.CopyEntriesSucceed | code/theme.cpp:30-32 | string entries present in a mapping are all copied |
| BaseTheme.PaletteStringsSucceed | code/theme.cpp:46-52 | a palette of parseable strings for all keys is copied |
| BaseTheme.BaseThemeFields | code/theme.cpp:28-35 | a loaded theme has exactly name, author, variant (verbatim, unchecked) and palette; system is not copied |
| BaseTheme.BaseThemePalette | code/theme.cpp:36-53 | the palette maps exactly the system's keys to their unnormalised strings, each parseable |
| BaseTheme.BaseThemeParts | code/theme.cpp:26-55 | a loaded theme comes from a base16/base24 system whose entries and palette strings were all read |
| BaseTheme.PaletteStringsContents | code/theme.cpp:44-52 | the palette strings come from a mapping holding every key as a parseable scalar, copied verbatim |
| BaseTheme.BaseThemeLoads | code/theme.cpp:26-56 | a well-formed document loads whatever its variant |
| BaseTheme.UnknownSystemFails | code/theme.cpp:40-41 | a system other than base16/base24 is an error naming it |
| BaseTheme.FirstInvalidColorNamed | code/theme.cpp:47-50 | the first unparseable colour stops the load, naming key and string |
| BaseTheme.PaletteStringsFirstFailure | code/theme.cpp:46-50 | the palette loop fails at the first string that does not parse |
| BaseXXThemes.ParseColors | code/basexx_theme.cpp:54-61 | on success one colour per name, the i-th parsed from the string under the i-th name |
| BaseXXThemes.ParsePalette | code/basexx_theme.cpp:53-61 | the `emplace_back` loop equals ParseColors |
| BaseXXThemes.ParseFromYaml | code/basexx_theme.cpp:31-64 | the imperative parser equals the specification ParsedTheme |
| BaseXXThemes.ParseFromYamlContent | code/basexx_theme.cpp:66-72 | every YAML exception, from loading (ParserError, BadFile) or from parsing, becomes an error holding its what() text |
| BaseXXThemes.ParseColorsSucceed | code/basexx_theme.cpp:54-58 | a palette of parseable strings yields colours |
| BaseXXThemes.UnknownVariantRejected | code/basexx_theme.cpp:36-39 | a variant other than dark/light is an error, before system and palette are read |
| BaseXXThemes.UnknownSystemRejected | code/basexx_theme.cpp:42-51 | with a valid variant, a system other than base16/base24 is an error naming it |
| BaseXXThemes.ParsedThemeContents | code/basexx_theme.cpp:32-51 | a parsed theme holds the four strings verbatim, a valid variant and system, and 16 or 24 colours |
| BaseXXThemes.ParsedThemeParts | code/basexx_theme.cpp:32-63 | a parsed theme is built from the four strings and the colours parsed under its system's keys |
| BaseXXThemes.ParsedThemePalette | code/basexx_theme.cpp:53-61 | palette[i] is the colour parsed from the string under the i-th key |
| BaseXXThemes.PaletteDecides | code/basexx_theme.cpp:53-63 | once the checks pass, the outcome is the palette loop's |
| BaseXXThemes.WellFormedThemeParses | code/basexx_theme.cpp:31-64 | a well-formed document parses |
| BaseXXThemes.ParseColorsFirstFailure | code/basexx_theme.cpp:54-60 | the palette loop fails at the first string that does not parse |
| BaseXXThemes.FirstUnparseableColorAborts | code/basexx_theme.cpp:56-60 | the first unparseable colour aborts with its string; no partial theme |
| Generate.FindFrom | code/generate.cpp:44 | `std::string::find`: the first occurrence at or after the start, or none at all |
| Generate.MakeSystemExecCommand | code/generate.cpp:43-49 | fails iff the shell has no "{}"; the result is 2 characters shorter than shell plus command |
| Generate.SubstitutesFirstPlaceholder | code/generate.cpp:44-48 | the result is the shell up to the first "{}", the command, the shell after it |
| Generate.SubstitutionInverts | code/generate.cpp:48 | putting "{}" back in place of the command restores the shell string |
| Generate.LaterPlaceholdersKept | code/generate.cpp:44-48 | only the first "{}" is replaced; later ones remain, shifted |
| Generate.ParseColorOrThrow | code/generate.cpp:24-30 | the parsed colour, or the "'…' is not valid color" error exactly when parsing fails |
| Generate.HexCallback | code/generate.cpp:32-35 | exactly six lower-case hex digits; fails exactly on an unparseable argument |
| Generate.RgbCallback | code/generate.cpp:37-40 | succeeds exactly on a parseable argument, else the parseColorOrThrow error |
| Generate.HexValueConcat | code/generate.cpp:34 | the value of concatenated hex digit strings |
| Generate.HexCallbackRoundTrip | code/generate.cpp:32-35 | `"#"` + what hex writes parses back to the argument's colour |
| Generate.DecimalPrefixLength | code/generate.cpp:39 | the maximal run of leading decimal digits |
| Generate.DecimalPrefixOf | code/generate.cpp:39 | a decimal run followed by a non-digit is read exactly |
| Generate.ReadFieldOfDecimal | code/generate.cpp:39 | a written component followed by ", " is read back |
| Generate.RgbCallbackRoundTrip | code/generate.cpp:37-40 | reading "r, g, b" back gives three bytes that recompose the argument's colour |
| Utils.Join | code/utils.cpp:19 | POSIX `operator/`: an absolute right side replaces; otherwise starts with the left, ends with the right, with one '/' inserted after a file name |
| Utils.HomePath | code/utils.cpp:10-15 | $HOME exactly when it is set, otherwise the ENOENT error |
| Utils.ConfigPathSelection | code/utils.cpp:17-24 | $XDG_CONFIG_HOME/walng if set, else $HOME/.config/walng, an error exactly when neither is set |
| Utils.CachePathSelection | code/utils.cpp:26-33 | the same rule with $XDG_CACHE_HOME and .cache |
| Utils.XdgPath | code/utils.cpp:17-33 | the shared rule of both directories: an error (ENOENT, "HOME env variable not set") exactly when neither the XDG variable nor $HOME is set, otherwise a path whose last component is walng |
| Utils.ConfigPath | code/utils.cpp:17-24 | getConfigPath succeeds exactly when $XDG_CONFIG_HOME or $HOME is set, and its directory ends in a component named walng |
| Utils.CachePath | code/utils.cpp:26-33 | getCachePath succeeds exactly when $XDG_CACHE_HOME or $HOME is set, and its directory ends in a component named walng |
| Utils.TildeExpanded | code/utils.cpp:55-64 | fails exactly for "~/…" without $HOME; any path not starting with "~/" is unchanged |
| Utils.FsPath.ExpandTilda | code/utils.cpp:55-64 | the path is replaced by its expansion on success and left unchanged on failure |
| Utils.TildeExpansionUnderHome | code/utils.cpp:56-61 | "~/rest" becomes $HOME / rest, absolute when $HOME is |
| Utils.TildeExpansionIdempotent | code/utils.cpp:55-64 | with an absolute $HOME, expanding an expanded path changes nothing |
| Utils.MakeTempName | code/utils.cpp:42-45 | the array loop writes the allowed character of each draw |
| Utils.TempNameAlphabet | code/utils.cpp:36-45 | every name character is allowed and none is 'p' |
| Utils.MakeTempFilePath | code/utils.cpp:35-53 | the temp directory joined with the name, or the "can't obtain temp directory path" error with its code |
| Utils.TempFilePathShape | code/utils.cpp:52 | the path starts with the directory and ends with the 16-character name after a '/' |
| ConfigLoader.ShellSetting | code/config.cpp:24 | throws exactly when the root is no mapping or the config section is missing or a scalar; a string shell is taken verbatim |
| ConfigLoader.Size | code/config.cpp:31 | `size()` throws exactly on a missing node |
| ConfigLoader.ReadItem | code/config.cpp:35-51 | on success the item's name is the document's name string |
| ConfigLoader.ReadItems | code/config.cpp:34-52 | on success n items, the i-th read from the i-th element |
| ConfigLoader.LoadItem | code/config.cpp:35-51 | the imperative item body, with paths expanded in place, equals ReadItem |
| ConfigLoader.LoadItems | code/config.cpp:31-52 | the item loop equals ReadItems |
| ConfigLoader.LoadConfig | code/config.cpp:21-54 | the imperative loader equals the specification LoadedConfig |
| ConfigLoader.LoadConfigFromYamlFile | code/config.cpp:19-58 | every YAML exception, including ParserError and BadFile from loading, becomes an error holding its what() text |
| ConfigLoader.MissingConfigSectionThrows | code/config.cpp:24 | no config section: InvalidNode for "config", not the default |
| ConfigLoader.ShellDefaults | code/config.cpp:24 | a config section without a string shell gets "/bin/sh -c '{}'", whose placeholder is at index 12 |
| ConfigLoader.PlaceholderCheckedFirst | code/config.cpp:25-27 | a shell without "{}" is an error before any item is read |
| ConfigLoader.LoadedShellRunsHooks | code/config.cpp:25-27 | a loaded shell accepts every hook command in makeSystemExecCommand |
| ConfigLoader.ReadItemFields | code/config.cpp:38-51 | name verbatim, template and target tilde-expanded, hook or "" |
| ConfigLoader.UnexpandableTemplateNamed | code/config.cpp:40-44 | a "~/" template without $HOME is an error naming the item |
| ConfigLoader.FirstFailingItemStops | code/config.cpp:34-52 | the first failing item decides the outcome |
| ConfigLoader.ItemsFollowSequence | code/config.cpp:31-37 | one item per sequence element, in order |
| ConfigLoader.ScalarItemsAreEmpty | code/config.cpp:31 | a scalar items entry gives no items |
| ConfigLoader.MissingItemsThrow | code/config.cpp:29-31 | a missing items entry throws InvalidNode |
| CurlErrors.Ordinal | code/net/error.h:12 | every enumerator has an ordinal in 0..5 |
| CurlErrors.FromOrdinal | code/net/error.h:19 | the cast back is the inverse of the ordinal |
| CurlErrors.MakeErrorCode | code/net/error.h:40-42 | the code carries the enumerator's ordinal in the "curl-error" category |
| CurlErrors.OrdinalRoundTrip | code/net/error.h:12 | ordinal and cast are inverse |
| CurlErrors.MessagesDistinct | code/net/error.h:18-31 | the six messages are pairwise distinct and none is the unknown-code text |
| CurlErrors.Message | code/net/error.h:18-34 | `message(ec)` is "(unrecognized error)" exactly for integers outside the six enumerators 0..5 |
| CurlErrors.UrlInitMessage | code/net/error_test.cpp:11 | the code made from UrlInit reads "failed to init url handle" |

## Left out

- The network fetch subsystem (`NetThread`, `FetchWorker`, the `Request`/`Response` types, the curl handle wrappers and `download`). It is concurrent I/O over libcurl.
- YAML parsing (`YAML::Load`, `YAML::LoadFile`). The loaded tree, or the exception loading raised, is a parameter. That exception is a ParserError (invalid YAML text) or a BadFile (LoadFile could not open the file).
- Yaml.Lookup: yaml-cpp's null nodes are treated as scalars. In yaml-cpp, indexing a null node with a string key gives a zombie node, and indexing that zombie again throws InvalidNode. In the model the null node is a scalar, so that same index throws BadSubscript.
- Colors.ParseHex, ThemeLoader.IsValidHexColor: a string is modelled as a sequence of characters, one character per byte. The C++ `size()` counts UTF-8 bytes, so for non-ASCII text such as "#12345é" (eight bytes) the C++ length check fails while the model's passes. The model holds for ASCII input only.
- Generate.HexCallback, Generate.RgbCallback: `args.at(0)->get<std::string>()` throws json `type_error` when the argument is not a string, and `out_of_range` when it is missing. The model takes the argument as a string parameter, so these exceptions are not modelled.
- Yaml.YamlError.What: the texts approximate yaml-cpp's messages and leave out the line/column mark prefix.
- Theme::loadFromYAMLFile's `absolute(path)`: the absolute file name is a parameter.
- inja template rendering, the file copying and `::system` calls in `generate`, and the CLI (`main.cpp`). These are I/O and external libraries.
- Colors.Color.AsRGB: the C++ masks and shifts are modelled as division and remainder on the integer value. A bit-vector version of the same identity is not proved.
- BaseXXThemes.UnparseableColor: the message ends before the reason text of the colour parser. That parser comes from the `walng.color` module, which is not part of this model; the `parseColorFromHexStr` of `code/colors.h` stands in for it.
- ConfigLoader: `expand_tilda` comes from the `walng.utils` module, which is not part of this model. It is modelled by `expandTilda` of `code/utils.cpp`.
- ConfigLoader.ItemAt: yaml-cpp converts mapping keys to integers when a mapping is indexed by position. The model matches only keys written as plain decimals; keys such as "00" or "+1" are not matched.
- `basexx_theme_parse_from_yaml_file` is not modelled beyond its catch clause, which ParseFromYamlContent shares. It loads a file and ignores the result of its tilde expansion.
- Utils.HomePath: `secure_getenv` returns nothing in setuid processes; the environment map does not model that. The `what()` text of `std::system_error` appends the error-code message to the context, and the model keeps only the context.
- Utils.MakeTempFilePath: `std::random_device` and `std::mt19937` are replaced by the 16 draws, given as a parameter. `temp_directory_path` is replaced by its outcome, also a parameter.
- Utils.Join: only POSIX paths; root names and `..` handling are not modelled.
