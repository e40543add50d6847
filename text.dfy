/**
 * The string operations the services rely on: `toUpperCase`,
 * `equalsIgnoreCase` and `isBlank`. Case mapping covers the ASCII letters;
 * blankness follows `Character.isWhitespace`.
 */
module Text {

  predicate IsLowerLetter(c: char) { 'a' <= c <= 'z' }

  /** Upper-case form of one character (ASCII letters only). */
  function UpperChar(c: char): (u: char)
    ensures !IsLowerLetter(u)
    ensures IsLowerLetter(c) ==> u as int == c as int - 32
    ensures !IsLowerLetter(c) ==> u == c
  {
    if IsLowerLetter(c) then (c as int - 32) as char else c
  }

  /** No lower-case letter occurs in `s`. */
  predicate IsUpperCase(s: string) {
    forall i :: 0 <= i < |s| ==> !IsLowerLetter(s[i])
  }

  /** `s.toUpperCase()`. */
  function ToUpper(s: string): (r: string)
    ensures |r| == |s|
    ensures forall i :: 0 <= i < |s| ==> r[i] == UpperChar(s[i])
    ensures IsUpperCase(r)
  {
    if s == [] then [] else [UpperChar(s[0])] + ToUpper(s[1..])
  }

  /** Upper-casing twice gives what upper-casing once gives. */
  lemma {:induction false} ToUpperIdempotent(s: string)
    ensures ToUpper(ToUpper(s)) == ToUpper(s)
  {
    if s != [] {
      ToUpperIdempotent(s[1..]);
      assert ToUpper(s)[1..] == ToUpper(s[1..]);
    }
  }

  /** An upper-case string is its own upper-case form. */
  lemma UpperCaseIsFixed(s: string)
    requires IsUpperCase(s)
    ensures ToUpper(s) == s
  {
  }

  /** `a.equalsIgnoreCase(b)`, compared character by character. */
  function EqualsIgnoreCase(a: string, b: string): (r: bool)
    ensures r <==> ToUpper(a) == ToUpper(b)
  {
    if |a| != |b| then false
    else if a == [] then true
    else UpperChar(a[0]) == UpperChar(b[0]) && EqualsIgnoreCase(a[1..], b[1..])
  }

  /** `Character.isSpaceChar`: the Unicode space separators (category Zs),
      the line separator (Zl) and the paragraph separator (Zp). */
  predicate IsSpaceChar(c: char) {
    var n := c as int;
    || n == 0x20 || n == 0xA0 || n == 0x1680 || 0x2000 <= n <= 0x200A
    || n == 0x202F || n == 0x205F || n == 0x3000
    || n == 0x2028
    || n == 0x2029
  }

  /** `Character.isWhitespace`: the ASCII separators and control
      whitespace, and the Unicode space, line and paragraph separators other
      than the non-breaking ones. */
  function IsWhitespace(c: char): (r: bool)
    ensures r <==> || (IsSpaceChar(c) && c as int != 0xA0 && c as int != 0x2007 && c as int != 0x202F)
                   || 0x09 <= c as int <= 0x0D
                   || 0x1C <= c as int <= 0x1F
    ensures c as int < 0x80 ==> (r <==> c == ' ' || 0x09 <= c as int <= 0x0D || 0x1C <= c as int <= 0x1F)
  {
    var n := c as int;
    || n == 0x20 || 0x09 <= n <= 0x0D || 0x1C <= n <= 0x1F
    || n == 0x1680 || 0x2000 <= n <= 0x2006 || 0x2008 <= n <= 0x200A
    || n == 0x2028 || n == 0x2029 || n == 0x205F || n == 0x3000
  }

  /** `s.isBlank()`: scanned from the front, stopping at the first
      non-whitespace character. */
  function IsBlank(s: string): (r: bool)
    ensures r <==> forall i :: 0 <= i < |s| ==> IsWhitespace(s[i])
  {
    if s == [] then true
    else if !IsWhitespace(s[0]) then false
    else IsBlank(s[1..])
  }
}
