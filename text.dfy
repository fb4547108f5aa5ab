/**
 * The string primitives the monitor relies on (Python's `str.strip`, `str.lower`,
 * `str.split(",")`, `str.replace`, `str.startswith`, the `in` substring test, and the
 * decimal subset of `int()` and `float()`), stated over `seq<char>`.
 */
module Text {
  import opened Wrappers

  /** Python's `str.isspace()` for a single character. */
  predicate IsSpace(c: char) {
    || c == ' ' || ('\t' <= c <= '\r') || ('\U{1c}' <= c <= '\U{1f}')
    || c == '\U{85}' || c == '\U{a0}' || c == '\U{1680}'
    || ('\U{2000}' <= c <= '\U{200a}') || c == '\U{2028}' || c == '\U{2029}'
    || c == '\U{202f}' || c == '\U{205f}' || c == '\U{3000}'
  }

  /** Every character of `t` is whitespace. */
  predicate AllSpace(t: string) {
    forall k :: 0 <= k < |t| ==> IsSpace(t[k])
  }

  /** `s.lstrip()`: a suffix of `s`; what it cut is whitespace and it starts with none. */
  function TrimLeft(s: string): (r: string)
    ensures |r| <= |s| && r == s[|s| - |r|..]
    ensures |r| > 0 ==> !IsSpace(r[0])
    ensures AllSpace(s[..|s| - |r|])
  {
    if |s| > 0 && IsSpace(s[0]) then TrimLeft(s[1..]) else s
  }

  /** `s.rstrip()`: a prefix of `s`; what it cut is whitespace and it ends with none. */
  function TrimRight(s: string): (r: string)
    ensures |r| <= |s| && r == s[..|r|]
    ensures |r| > 0 ==> !IsSpace(r[|r| - 1])
    ensures AllSpace(s[|r|..])
  {
    if |s| > 0 && IsSpace(s[|s| - 1]) then TrimRight(s[..|s| - 1]) else s
  }

  /**
   * `s.strip()`: the left trim and then the right trim, each of which cuts exactly the
   * whitespace run at its end, so no whitespace is left at either end.
   */
  function Strip(s: string): (r: string)
    ensures r == TrimRight(TrimLeft(s)) && |r| <= |s|
    ensures |r| > 0 ==> !IsSpace(r[0]) && !IsSpace(r[|r| - 1])
  {
    var l := TrimLeft(s);
    var r := TrimRight(l);
    assert |r| > 0 ==> r[0] == l[0];
    r
  }

  function LowerChar(c: char): char {
    if 'A' <= c <= 'Z' then (c as int + 32) as char else c
  }

  function UpperChar(c: char): char {
    if 'a' <= c <= 'z' then (c as int - 32) as char else c
  }

  /** `s.lower()` on the ASCII letters. */
  function Lower(s: string): (r: string)
    ensures |r| == |s|
    ensures forall i :: 0 <= i < |s| ==> r[i] == LowerChar(s[i])
  {
    seq(|s|, i requires 0 <= i < |s| => LowerChar(s[i]))
  }

  /** Lower-casing a string without capital letters changes nothing. */
  lemma LowerUnchanged(s: string)
    requires forall i :: 0 <= i < |s| ==> !('A' <= s[i] <= 'Z')
    ensures Lower(s) == s
  {
  }

  /** `s.capitalize()`: first character upper case, the rest lower case. */
  function Capitalize(s: string): (r: string)
    ensures |r| == |s|
    ensures |s| > 0 ==> r[0] == UpperChar(s[0]) && r[1..] == Lower(s[1..])
  {
    if s == [] then [] else [UpperChar(s[0])] + Lower(s[1..])
  }

  /** `s.startswith(p)`. */
  predicate StartsWith(s: string, p: string) {
    |p| <= |s| && s[..|p|] == p
  }

  /** `p in s`: some window of `s` equals `p` (always true of the empty `p`). */
  predicate Contains(s: string, p: string)
    decreases |s|
  {
    StartsWith(s, p) || (|s| > 0 && Contains(s[1..], p))
  }

  /** `s.split(sep)`: the pieces between separators, at least one. */
  function Split(s: string, sep: char): (r: seq<string>)
    ensures |r| >= 1
  {
    if s == [] then [[]]
    else
      var rest := Split(s[1..], sep);
      if s[0] == sep then [[]] + rest else [[s[0]] + rest[0]] + rest[1..]
  }

  /** `s.replace(pat, rep)`: every non-overlapping occurrence, left to right. */
  function Replace(s: string, pat: string, rep: string): (r: string)
    requires |pat| > 0
    ensures |rep| == |pat| ==> |r| == |s|
    ensures |rep| <= |pat| ==> |r| <= |s|
    decreases |s|
  {
    if |s| < |pat| then s
    else if s[..|pat|] == pat then rep + Replace(s[|pat|..], pat, rep)
    else [s[0]] + Replace(s[1..], pat, rep)
  }

  /** Every character of a pattern that occurs in `s` is a character of `s`. */
  lemma {:induction false} ContainsChar(s: string, p: string, j: nat)
    requires Contains(s, p) && j < |p|
    ensures p[j] in s
    decreases |s|
  {
    if StartsWith(s, p) {
      assert s[j] == p[j];
    } else {
      ContainsChar(s[1..], p, j);
    }
  }

  /** A pattern with a character that `s` lacks occurs nowhere, and replacing it changes nothing. */
  lemma {:induction false} ReplaceAbsent(s: string, pat: string, rep: string, j: nat)
    requires j < |pat| && pat[j] !in s
    ensures Replace(s, pat, rep) == s
    decreases |s|
  {
    if |s| >= |pat| {
      assert s[..|pat|][j] == s[j];
      ReplaceAbsent(s[1..], pat, rep, j);
      assert [s[0]] + s[1..] == s;
    }
  }

  predicate IsDigit(c: char) {
    '0' <= c <= '9'
  }

  predicate AllDigits(s: string) {
    forall i :: 0 <= i < |s| ==> IsDigit(s[i])
  }

  /** The value of a string of decimal digits. */
  function DigitsValue(s: string): nat
    requires AllDigits(s)
  {
    if s == [] then 0
    else DigitsValue(s[..|s| - 1]) * 10 + (s[|s| - 1] as int - '0' as int)
  }

  function Pow10(n: nat): (r: nat)
    ensures r > 0
  {
    if n == 0 then 1 else 10 * Pow10(n - 1)
  }

  /** Index of the first '.', or |s| when there is none. */
  function DotIndex(s: string): (i: nat)
    ensures i <= |s|
    ensures i < |s| ==> s[i] == '.'
    ensures forall k :: 0 <= k < i ==> s[k] != '.'
  {
    if s == [] then 0
    else if s[0] == '.' then 0
    else 1 + DotIndex(s[1..])
  }

  /**
   * The unsigned body of a Python float literal without exponent: digits with at most
   * one '.', and at least one digit ("7", "7.", ".5", "7.25").
   */
  function DecimalBody(b: string): (r: Option<real>)
    ensures r.Some? ==> r.value >= 0.0
  {
    var i := DotIndex(b);
    if i == |b| then
      if |b| > 0 && AllDigits(b) then Some(DigitsValue(b) as real) else None
    else
      var whole, frac := b[..i], b[i + 1..];
      if AllDigits(whole) && AllDigits(frac) && |whole| + |frac| > 0 then
        Some(DigitsValue(whole) as real + DigitsValue(frac) as real / Pow10(|frac|) as real)
      else None
  }

  /** Removes one leading '+' or '-' and reports whether it was '-'. */
  function SignOf(t: string): (bool, string) {
    if |t| > 0 && (t[0] == '+' || t[0] == '-') then (t[0] == '-', t[1..]) else (false, t)
  }

  /** `float(s)` for decimal literals: surrounding whitespace, an optional sign, a decimal body. */
  function ParseFloat(s: string): (r: Option<real>)
    ensures r.Some? && r.value < 0.0 ==> '-' in s
  {
    var (neg, body) := SignOf(Strip(s));
    match DecimalBody(body)
    case None => None
    case Some(v) => Some(if neg then -v else v)
  }

  /** A non-empty run of digits after at most one sign, which is '-' when `negative`. */
  predicate SignedDigits(t: string, negative: bool) {
    |t| > 0 && AllDigits(t[1..]) && (IsDigit(t[0]) || t[0] == '+' || t[0] == '-')
    && (|t| > 1 || IsDigit(t[0]))
    && (negative ==> t[0] == '-')
  }

  /** `int(s)`: surrounding whitespace, an optional sign, one or more digits. */
  function ParseInt(s: string): (r: Option<int>)
    ensures r.Some? ==> SignedDigits(Strip(s), r.value < 0)
  {
    var (neg, body) := SignOf(Strip(s));
    if |body| > 0 && AllDigits(body) then
      Some(if neg then -(DigitsValue(body) as int) else DigitsValue(body) as int)
    else None
  }

  /** A plain run of digits reads as its decimal value. */
  lemma ParseIntDigits(s: string)
    requires |s| > 0 && AllDigits(s)
    ensures ParseInt(s) == Some(DigitsValue(s) as int)
  {
    assert IsDigit(s[0]) && IsDigit(s[|s| - 1]);
    StripUnchanged(s);
    assert SignOf(Strip(s)) == (false, s);
  }

  /** A string with no whitespace at either end is its own strip. */
  lemma StripUnchanged(s: string)
    requires |s| > 0 && !IsSpace(s[0]) && !IsSpace(s[|s| - 1])
    ensures Strip(s) == s
  {
  }

  /** Stripping removes one space on each side of a string that has no space at its ends. */
  lemma StripPadded(s: string)
    requires |s| > 0 && !IsSpace(s[0]) && !IsSpace(s[|s| - 1])
    ensures Strip(" " + s + " ") == s
  {
    var padded := " " + s + " ";
    assert padded[1..] == s + " ";
    assert TrimLeft(padded) == s + " ";
    assert (s + " ")[..|s|] == s;
    assert TrimRight(s + " ") == TrimRight(s);
  }

  /** `float(s)` of a string without sign or surrounding whitespace is its decimal body. */
  lemma ParseFloatUnsigned(s: string)
    requires |s| > 0 && !IsSpace(s[0]) && s[0] != '+' && s[0] != '-' && !IsSpace(s[|s| - 1])
    ensures ParseFloat(s) == DecimalBody(s)
  {
    StripUnchanged(s);
  }

  /** The token grammar `[0-9]+(\.[0-9]+)?` matched in full. */
  predicate IsDecimalToken(t: string) {
    var i := DotIndex(t);
    || (i == |t| && |t| > 0 && AllDigits(t))
    || (0 < i < |t| - 1 && AllDigits(t[..i]) && AllDigits(t[i + 1..]))
  }

  /** A token of the grammar converts with `float()`, to a non-negative value. */
  lemma DecimalTokenParses(t: string)
    requires IsDecimalToken(t)
    ensures DecimalBody(t).Some? && DecimalBody(t).value >= 0.0
  {
  }
}
