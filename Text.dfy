/** The parts of .NET's character and string library that the core relies on.
    The Unicode tables behind char.IsLetter, char.ToLower and the ordinal
    case-insensitive comparison are not modelled: they are parameters
    (CharTables), and Ascii is one concrete instance used by the examples. */
module Text {
  import opened Wrappers

  /** A C# `string?`: null or a string. */
  type NullableString = Option<string>

  /** The character classification a run of the program uses:
      isLetter models char.IsLetter, toLower models char.ToLower (current
      culture) and upperInvariant the per-character upper-casing that
      StringComparison.OrdinalIgnoreCase compares by. */
  datatype CharTables = CharTables(
    isLetter: char -> bool,
    toLower: char -> char,
    upperInvariant: char -> char)

  /** string.IsNullOrEmpty */
  predicate IsNullOrEmpty(s: NullableString) {
    s.None? || s.value == ""
  }

  /** What string interpolation prints for a nullable string: null prints as "". */
  function Show(s: NullableString): string {
    s.GetOr("")
  }

  /** s.EndsWith(suffix, StringComparison.OrdinalIgnoreCase): the last |suffix|
      characters of s agree with suffix, one by one, once both are upper-cased. */
  predicate EndsWithIgnoreCase(t: CharTables, s: string, suffix: string) {
    |suffix| <= |s| &&
    forall i :: 0 <= i < |suffix| ==>
      t.upperInvariant(s[|s| - |suffix| + i]) == t.upperInvariant(suffix[i])
  }

  predicate AsciiIsLetter(c: char) {
    'A' <= c <= 'Z' || 'a' <= c <= 'z'
  }

  function AsciiToLower(c: char): (r: char)
    ensures 'A' <= c <= 'Z' ==> 'a' <= r <= 'z'
    ensures !('A' <= c <= 'Z') ==> r == c
  {
    if 'A' <= c <= 'Z' then (c as int + 32) as char else c
  }

  function AsciiToUpper(c: char): (r: char)
    ensures 'a' <= c <= 'z' ==> 'A' <= r <= 'Z'
    ensures !('a' <= c <= 'z') ==> r == c
  {
    if 'a' <= c <= 'z' then (c as int - 32) as char else c
  }

  /** The tables restricted to ASCII: letters are A-Z and a-z, and case
      mapping moves between the two ranges. */
  const Ascii := CharTables(AsciiIsLetter, AsciiToLower, AsciiToUpper)
}
