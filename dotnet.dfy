/**
 * The few pieces of the .NET base library that the Category entity relies on:
 * strings as sequences of UTF-16 code units, `Guid`, `DateTime`, `Char.IsWhiteSpace`
 * and `String.IsNullOrWhiteSpace`.
 */
module DotNet {
  import opened Wrappers

  /** A .NET `char`: one UTF-16 code unit. */
  newtype Char16 = x: int | 0 <= x < 0x1_0000

  /** A .NET `string`: its `Length` counts UTF-16 code units. */
  type NetString = seq<Char16>

  /** A `Guid` is a 128-bit value; `default(Guid)` is all zeroes. */
  newtype Guid = x: int | 0 <= x < 0x1_0000_0000_0000_0000_0000_0000_0000_0000

  const EmptyGuid: Guid := 0

  /** A `DateTime` as its tick count, from `DateTime.MinValue` to `DateTime.MaxValue`. */
  newtype DateTime = t: int | 0 <= t <= 3155378975999999999

  /**
   * `Char.IsWhiteSpace`: the members of the Unicode categories SpaceSeparator,
   * LineSeparator and ParagraphSeparator, plus U+0009 to U+000D and U+0085.
   */
  predicate IsWhiteSpace(c: Char16) {
    || c == 0x20 || c == 0xA0 || c == 0x1680
    || (0x2000 <= c <= 0x200A) || c == 0x202F || c == 0x205F || c == 0x3000
    || c == 0x2028
    || c == 0x2029
    || (0x09 <= c <= 0x0D) || c == 0x85
  }

  /** True when every code unit of `s` is white space (and so when `s` is empty). */
  function AllWhiteSpace(s: NetString): (r: bool)
    ensures r <==> forall i :: 0 <= i < |s| ==> IsWhiteSpace(s[i])
  {
    if s == [] then true
    else if !IsWhiteSpace(s[0]) then false
    else AllWhiteSpace(s[1..])
  }

  /** `String.IsNullOrWhiteSpace`: null, empty, or nothing but white space. */
  function IsNullOrWhiteSpace(s: Option<NetString>): (r: bool)
    ensures r <==> (s.None? || forall i :: 0 <= i < |s.value| ==> IsWhiteSpace(s.value[i]))
  {
    match s
    case None => true
    case Some(v) => AllWhiteSpace(v)
  }

  /** The UTF-16 form of a string literal made of characters of the Basic Multilingual Plane. */
  function FromLiteral(s: string): (r: NetString)
    requires forall i :: 0 <= i < |s| ==> s[i] as int < 0x1_0000
    ensures |r| == |s|
    ensures forall i :: 0 <= i < |s| ==> r[i] as int == s[i] as int
  {
    seq(|s|, i requires 0 <= i < |s| => s[i] as int as Char16)
  }
}
