/** The palette key lists of the base16 and base24 colour systems
    (kBase16Color/kBase24Color in code/theme.cpp, base16_colors/base24_colors
    in code/basexx_theme.cpp: the two files hold identical lists). */
module PaletteKeys {

  const Base16Keys: seq<string> := [
    "base00", "base01", "base02", "base03", "base04", "base05", "base06", "base07",
    "base08", "base09", "base0A", "base0B", "base0C", "base0D", "base0E", "base0F"]

  const Base24Keys: seq<string> := [
    "base00", "base01", "base02", "base03", "base04", "base05", "base06", "base07",
    "base08", "base09", "base0A", "base0B", "base0C", "base0D", "base0E", "base0F",
    "base10", "base11", "base12", "base13", "base14", "base15", "base16", "base17"]

  /** The base16 keys are the first sixteen base24 keys, and no key repeats. */
  lemma Base16IsPrefixOfBase24()
    ensures |Base16Keys| == 16 && |Base24Keys| == 24
    ensures Base24Keys[..16] == Base16Keys
    ensures forall i, j :: 0 <= i < j < |Base24Keys| ==> Base24Keys[i] != Base24Keys[j]
  {
  }
}
