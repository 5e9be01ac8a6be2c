/** The few JavaScript string operations the query engine and the form rely on:
    trimming, splitting at a separator, upper-casing one character, replacing a
    character, rendering a whole number (what `toFixed(0)` yields for a whole
    value) and reading a leading number back (what `parseFloat` does to such a
    text). */
module JsStrings {

  datatype Option<T> = None | Some(value: T)

  // ---------------------------------------------------------------------------
  // Decimal digits

  predicate IsDigit(c: char) {
    '0' <= c <= '9'
  }

  predicate AllDigits(s: string) {
    forall i :: 0 <= i < |s| ==> IsDigit(s[i])
  }

  function DigitChar(d: nat): (c: char)
    requires d < 10
    ensures IsDigit(c) && c as int - '0' as int == d
  {
    ('0' as int + d) as char
  }

  function DigitValue(c: char): (d: nat)
    requires IsDigit(c)
    ensures d < 10 && DigitChar(d) == c
  {
    c as int - '0' as int
  }

  /** The decimal rendering of `n`, most significant digit first, with no
      leading zero (the text JavaScript produces for a whole number). */
  function NatToString(n: nat): (s: string)
    ensures |s| > 0 && AllDigits(s)
    ensures s[0] == '0' ==> n == 0
    decreases n
  {
    if n < 10 then [DigitChar(n)] else NatToString(n / 10) + [DigitChar(n % 10)]
  }

  /** The value of a run of decimal digits, read left to right. */
  function DigitsValue(s: string): nat
    requires AllDigits(s)
  {
    if s == [] then 0 else DigitsValue(s[..|s| - 1]) * 10 + DigitValue(s[|s| - 1])
  }

  /** Reading back the rendering of a number gives the number. */
  lemma {:induction false} DigitsValueOfNatToString(n: nat)
    ensures DigitsValue(NatToString(n)) == n
    decreases n
  {
    var s := NatToString(n);
    if n >= 10 {
      DigitsValueOfNatToString(n / 10);
      assert s[..|s| - 1] == NatToString(n / 10);
    }
  }

  /** The length of the longest prefix of `s` made of digits. */
  function LeadingDigitCount(s: string): (k: nat)
    ensures k <= |s| && AllDigits(s[..k])
    ensures k == |s| || !IsDigit(s[k])
  {
    if s == [] || !IsDigit(s[0]) then 0
    else
      var k := 1 + LeadingDigitCount(s[1..]);
      assert s[..k] == [s[0]] + s[1..][..k - 1];
      k
  }

  /** `parseFloat` on a text that is a whole number possibly followed by other
      characters: the value of the leading digit run, or None (JavaScript's NaN)
      when the text does not start with a digit. */
  function ParseLeadingNat(s: string): (r: Option<nat>)
    ensures r.None? <==> (s == [] || !IsDigit(s[0]))
  {
    var k := LeadingDigitCount(s);
    if k == 0 then None else Some(DigitsValue(s[..k]))
  }

  /** A number rendered by NatToString and followed by a non-digit suffix (such
      as "%") parses back to itself. */
  lemma ParseNatToString(n: nat, suffix: string)
    requires suffix == [] || !IsDigit(suffix[0])
    ensures ParseLeadingNat(NatToString(n) + suffix) == Some(n)
  {
    var d := NatToString(n);
    var s := d + suffix;
    var k := LeadingDigitCount(s);
    assert s[..|d|] == d;
    assert k == |d|;
    DigitsValueOfNatToString(n);
  }

  // ---------------------------------------------------------------------------
  // Whitespace and String.prototype.trim

  /** The whitespace characters `trim` removes (the ASCII ones and the
      no-break space; the other Unicode space separators are not modelled). */
  predicate IsWhitespace(c: char) {
    c == ' ' || c == '\t' || c == '\n' || c == '\r' || c == '\U{000B}' || c == '\U{000C}' || c == '\U{00A0}'
  }

  predicate AllWhitespace(s: string) {
    forall i :: 0 <= i < |s| ==> IsWhitespace(s[i])
  }

  /** Number of whitespace characters at the start of `s`. */
  function LeadingSpaceCount(s: string): (k: nat)
    ensures k <= |s| && AllWhitespace(s[..k])
    ensures k == |s| || !IsWhitespace(s[k])
  {
    if s == [] || !IsWhitespace(s[0]) then 0
    else
      var k := 1 + LeadingSpaceCount(s[1..]);
      assert s[..k] == [s[0]] + s[1..][..k - 1];
      k
  }

  /** Number of whitespace characters at the end of `s`. */
  function TrailingSpaceCount(s: string): (k: nat)
    ensures k <= |s| && AllWhitespace(s[|s| - k..])
    ensures k == |s| || !IsWhitespace(s[|s| - k - 1])
  {
    if s == [] || !IsWhitespace(s[|s| - 1]) then 0
    else
      var k := 1 + TrailingSpaceCount(s[..|s| - 1]);
      assert s[|s| - k..] == s[..|s| - 1][|s| - k..] + [s[|s| - 1]];
      k
  }

  /** `s.trim()`: `s` without its leading and trailing whitespace. */
  function Trim(s: string): (r: string)
    ensures r == [] || (!IsWhitespace(r[0]) && !IsWhitespace(r[|r| - 1]))
    ensures exists i :: 0 <= i <= |s| - |r| && s[i..i + |r|] == r
              && AllWhitespace(s[..i]) && AllWhitespace(s[i + |r|..])
  {
    var a := LeadingSpaceCount(s);
    var rest := s[a..];
    var b := TrailingSpaceCount(rest);
    var r := rest[..|rest| - b];
    assert |r| > 0 ==> r[0] == s[a] && r[|r| - 1] == rest[|rest| - b - 1];
    assert s[a..a + |r|] == r;
    assert s[a + |r|..] == rest[|rest| - b..];
    assert AllWhitespace(s[..a]);
    r
  }

  /** Trimming only removes characters, so a character absent from `s` is
      absent from `s.trim()`. */
  lemma TrimKeepsAbsent(s: string, c: char)
    requires c !in s
    ensures c !in Trim(s)
  {
    var r := Trim(s);
    var i :| 0 <= i <= |s| - |r| && s[i..i + |r|] == r && AllWhitespace(s[..i]) && AllWhitespace(s[i + |r|..]);
    forall j | 0 <= j < |r| ensures r[j] != c {
      assert r[j] == s[i + j];
    }
  }

  /** `s.trim()` is empty exactly when `s` is all whitespace. */
  lemma TrimEmptyIff(s: string)
    ensures Trim(s) == [] <==> AllWhitespace(s)
  {
    var a := LeadingSpaceCount(s);
    var rest := s[a..];
    var b := TrailingSpaceCount(rest);
    if a + b == |s| {
      forall k | 0 <= k < |s| ensures IsWhitespace(s[k]) {
        assert a == |s| && s[..a][k] == s[k];
      }
    } else {
      assert Trim(s)[0] == s[a];
    }
  }

  // ---------------------------------------------------------------------------
  // split, toUpperCase, replace

  /** The position of the first `sep` in `s`, or `|s|` when there is none. */
  function FirstIndex(s: string, sep: char): nat {
    if s == [] || s[0] == sep then 0 else 1 + FirstIndex(s[1..], sep)
  }

  lemma {:induction false} FirstIndexFinds(s: string, sep: char)
    ensures FirstIndex(s, sep) <= |s| && sep !in s[..FirstIndex(s, sep)]
    ensures FirstIndex(s, sep) < |s| ==> s[FirstIndex(s, sep)] == sep
  {
    if s != [] && s[0] != sep {
      FirstIndexFinds(s[1..], sep);
      var k := FirstIndex(s, sep);
      assert s[..k] == [s[0]] + s[1..][..k - 1];
    }
  }

  /** `s.split(sep)[0]`: the part of `s` before the first `sep` (all of `s`
      when there is none). */
  function BeforeFirst(s: string, sep: char): (r: string)
    ensures |r| <= |s| && r == s[..|r|]
    ensures sep !in r
    ensures |r| < |s| ==> s[|r|] == sep
  {
    FirstIndexFinds(s, sep);
    s[..FirstIndex(s, sep)]
  }

  /** `toUpperCase` on one character, for the ASCII letters; every other
      character is returned as it is. The result is never a lower-case
      letter and lower-cases to what `c` lower-cases to. */
  function ToUpper(c: char): (u: char)
    ensures !('a' <= u <= 'z')
    ensures ToLower(u) == ToLower(c)
  {
    if 'a' <= c <= 'z' then (c as int - 32) as char else c
  }

  /** `toLowerCase` on one character, for the ASCII letters. The result is
      never an upper-case letter and changes nothing else. */
  function ToLower(c: char): (l: char)
    ensures !('A' <= l <= 'Z')
    ensures !('A' <= c <= 'Z') ==> l == c
  {
    if 'A' <= c <= 'Z' then (c as int + 32) as char else c
  }

  /** Lower-casing undoes upper-casing on the lower-case ASCII letters. */
  lemma ToLowerToUpper(c: char)
    requires 'a' <= c <= 'z'
    ensures ToLower(ToUpper(c)) == c
  {
  }

  /** `s.replace(/x/g, y)` for single characters `x` and `y`, one character
      at a time. */
  function ReplaceChar(s: string, x: char, y: char): (r: string)
    ensures |r| == |s|
    ensures forall i :: 0 <= i < |s| ==> r[i] == (if s[i] == x then y else s[i])
  {
    if s == [] then []
    else [if s[0] == x then y else s[0]] + ReplaceChar(s[1..], x, y)
  }
}
