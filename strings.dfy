/**
 * Character classes and case mapping the model uses. Case mapping is ASCII only:
 * 'a'..'z' and 'A'..'Z' are mapped, every other character is left as it is.
 */
module Chars {
  import opened Wrappers

  predicate IsAsciiUpper(c: char) {
    'A' <= c <= 'Z'
  }

  predicate IsAsciiLower(c: char) {
    'a' <= c <= 'z'
  }

  function ToUpper(c: char): (r: char)
    ensures !IsAsciiLower(r)
    ensures !IsAsciiLower(c) ==> r == c
    ensures IsAsciiLower(c) ==> IsAsciiUpper(r) && r as int == c as int - 32
  {
    if IsAsciiLower(c) then (c as int - 32) as char else c
  }

  function ToLower(c: char): (r: char)
    ensures !IsAsciiUpper(r)
    ensures !IsAsciiUpper(c) ==> r == c
    ensures IsAsciiUpper(c) ==> IsAsciiLower(r) && r as int == c as int + 32
  {
    if IsAsciiUpper(c) then (c as int + 32) as char else c
  }

  /** ToLowerInvariant. */
  function Lower(s: string): (r: string)
    ensures |r| == |s| && forall i :: 0 <= i < |s| ==> r[i] == ToLower(s[i])
  {
    seq(|s|, i requires 0 <= i < |s| => ToLower(s[i]))
  }

  /** A lower-cased string holds no upper-case letter. */
  lemma LowerHasNoUpper(s: string)
    ensures forall i :: 0 <= i < |Lower(s)| ==> !IsAsciiUpper(Lower(s)[i])
  {
  }

  /** char.IsWhiteSpace: the Unicode space separators, line and paragraph separators, and U+0009..U+000D, U+0085, U+00A0. */
  predicate IsWhiteSpace(c: char) {
    var n := c as int;
    || (0x09 <= n <= 0x0D) || n == 0x20 || n == 0x85 || n == 0xA0 || n == 0x1680
    || (0x2000 <= n <= 0x200A) || n == 0x2028 || n == 0x2029 || n == 0x202F || n == 0x205F || n == 0x3000
  }

  /** string.IsNullOrWhiteSpace. */
  predicate IsNullOrWhiteSpace(s: Option<string>) {
    s.None? || forall i :: 0 <= i < |s.value| ==> IsWhiteSpace(s.value[i])
  }
}

/** StringExtensions: FirstToUpper, SplitCamelCase and IsHttpUrl. */
module StringExtensions {
  import opened Wrappers
  import opened Chars

  /** FirstToUpper: null and "" give ""; otherwise the first character is upper-cased. */
  function FirstToUpper(input: Option<string>): (r: string)
    ensures input.None? || input.value == [] ==> r == []
    ensures input.Some? && input.value != [] ==>
      && |r| == |input.value|
      && r[0] == ToUpper(input.value[0])
      && r[1..] == input.value[1..]
  {
    match input
    case None => ""
    case Some(s) => if s == "" then "" else [ToUpper(s[0])] + s[1..]
  }

  /** FirstToUpper is idempotent. */
  lemma FirstToUpperIdempotent(s: string)
    ensures FirstToUpper(Some(FirstToUpper(Some(s)))) == FirstToUpper(Some(s))
  {
  }

  /** The cases "test", "hello world", null and "". */
  lemma FirstToUpperExamples()
    ensures FirstToUpper(Some("test")) == "Test"
    ensures FirstToUpper(Some("hello world")) == "Hello world"
    ensures FirstToUpper(None) == ""
    ensures FirstToUpper(Some("")) == ""
  {
  }

  // ---- SplitCamelCase: Regex.Split on (?<!^)(?=[A-Z]), then string.Join(" ", ...) ----

  /**
   * Regex.Split with the zero-width pattern: the text is cut before every 'A'..'Z' that is
   * not at position 0. piece is the part before rest that has not been cut off yet.
   */
  function SplitFrom(piece: string, rest: string): (r: seq<string>)
    ensures |r| >= 1
    decreases |rest|
  {
    if rest == [] then [piece]
    else if IsAsciiUpper(rest[0]) then [piece] + SplitFrom([rest[0]], rest[1..])
    else SplitFrom(piece + [rest[0]], rest[1..])
  }

  function RegexSplit(s: string): (r: seq<string>)
    ensures |r| >= 1
  {
    if s == [] then [""] else SplitFrom([s[0]], s[1..])
  }

  /** string.Join. */
  function Join(sep: string, parts: seq<string>): string
    decreases |parts|
  {
    if |parts| == 0 then ""
    else if |parts| == 1 then parts[0]
    else parts[0] + sep + Join(sep, parts[1..])
  }

  function SplitCamelCase(s: string): string {
    Join(" ", RegexSplit(s))
  }

  /** The intended meaning: one space before every 'A'..'Z' after position 0, nothing else changed. */
  function SpaceBeforeCapitals(t: string): string
    decreases |t|
  {
    if t == [] then []
    else (if IsAsciiUpper(t[0]) then [' ', t[0]] else [t[0]]) + SpaceBeforeCapitals(t[1..])
  }

  function InsertSpaces(s: string): string {
    if s == [] then [] else [s[0]] + SpaceBeforeCapitals(s[1..])
  }

  function CountCapitals(t: string): nat
    decreases |t|
  {
    if t == [] then 0 else (if IsAsciiUpper(t[0]) then 1 else 0) + CountCapitals(t[1..])
  }

  lemma {:induction false} SplitFromJoins(piece: string, rest: string)
    ensures Join(" ", SplitFrom(piece, rest)) == piece + SpaceBeforeCapitals(rest)
    decreases |rest|
  {
    if rest == [] {
      assert piece + [] == piece;
    } else if IsAsciiUpper(rest[0]) {
      SplitFromJoins([rest[0]], rest[1..]);
      var tail := SplitFrom([rest[0]], rest[1..]);
      assert ([piece] + tail)[1..] == tail;
      calc {
        Join(" ", [piece] + tail);
        piece + " " + Join(" ", tail);
        piece + " " + ([rest[0]] + SpaceBeforeCapitals(rest[1..]));
        piece + ([' ', rest[0]] + SpaceBeforeCapitals(rest[1..]));
      }
    } else {
      SplitFromJoins(piece + [rest[0]], rest[1..]);
      assert piece + [rest[0]] + SpaceBeforeCapitals(rest[1..]) == piece + ([rest[0]] + SpaceBeforeCapitals(rest[1..]));
    }
  }

  /** SplitCamelCase inserts one space before every 'A'..'Z' that is not at position 0, and changes nothing else. */
  lemma SplitCamelCaseInsertsSpaces(s: string)
    ensures SplitCamelCase(s) == InsertSpaces(s)
  {
    if s != [] {
      SplitFromJoins([s[0]], s[1..]);
    }
  }

  lemma {:induction false} SpaceBeforeCapitalsLength(t: string)
    ensures |SpaceBeforeCapitals(t)| == |t| + CountCapitals(t)
    decreases |t|
  {
    if t != [] {
      SpaceBeforeCapitalsLength(t[1..]);
    }
  }

  /** The output is as long as the input plus the number of capitals after position 0. */
  lemma SplitCamelCaseLength(s: string)
    ensures s == [] ==> SplitCamelCase(s) == ""
    ensures s != [] ==> |SplitCamelCase(s)| == |s| + CountCapitals(s[1..])
  {
    SplitCamelCaseInsertsSpaces(s);
    if s != [] {
      SpaceBeforeCapitalsLength(s[1..]);
    }
  }

  // ---- IsHttpUrl ----

  /** StartsWith(prefix, StringComparison.OrdinalIgnoreCase). */
  predicate StartsWithIgnoreCase(s: string, prefix: string) {
    |prefix| <= |s| && forall i :: 0 <= i < |prefix| ==> ToUpper(s[i]) == ToUpper(prefix[i])
  }

  predicate IsHttpUrl(input: Option<string>) {
    && !IsNullOrWhiteSpace(input)
    && (StartsWithIgnoreCase(input.value, "http://") || StartsWithIgnoreCase(input.value, "https://"))
  }

  /** IsHttpUrl is true exactly for a non-null string starting with "http://" or "https://" in any case. */
  lemma IsHttpUrlMeaning(input: Option<string>)
    ensures IsHttpUrl(input) <==>
      input.Some? && (StartsWithIgnoreCase(input.value, "http://") || StartsWithIgnoreCase(input.value, "https://"))
    ensures input.Some? && |input.value| >= 7 && input.value[..7] == "HTTP://" ==> IsHttpUrl(input)
    ensures IsNullOrWhiteSpace(input) ==> !IsHttpUrl(input)
  {
    if input.Some? && (StartsWithIgnoreCase(input.value, "http://") || StartsWithIgnoreCase(input.value, "https://")) {
      assert ToUpper(input.value[0]) == 'H';
      assert !IsWhiteSpace(input.value[0]);
    }
  }
}

/** NumericExtensions: the integer members. */
module NumericExtensions {

  /** C#'s int. */
  newtype int32 = x: int | -0x8000_0000 <= x < 0x8000_0000

  const Zero: int32 := 0

  /** ClampToPositive(int): negative inputs become 0, the others are returned unchanged. */
  function ClampToPositive(value: int32): (r: int32)
    ensures r >= 0
    ensures value >= 0 ==> r == value
    ensures value < 0 ==> r == 0
  {
    if value < Zero then Zero else value
  }

  lemma ClampToPositiveIdempotent(value: int32)
    ensures ClampToPositive(ClampToPositive(value)) == ClampToPositive(value)
  {
  }

  /** IsZero for a non-floating type: equality with the type's default value, given as zero. */
  predicate IsZero<T(==)>(value: T, zero: T) {
    value == zero
  }

  predicate NotZero<T(==)>(value: T, zero: T) {
    !IsZero(value, zero)
  }

  /** For int, IsZero holds exactly at 0, and NotZero is its negation. */
  lemma IsZeroOnInt(value: int32)
    ensures IsZero(value, 0 as int32) <==> value == 0
    ensures NotZero(value, 0 as int32) <==> !IsZero(value, 0 as int32)
  {
  }
}
