/** ASCII case mapping: the part of .NET's `ToLowerInvariant`,
    `ToUpperInvariant` and `StringComparison.OrdinalIgnoreCase` that the
    package layout and the hash-algorithm allow-list rely on. Characters
    outside 'A'..'Z' and 'a'..'z' are left as they are. */
module Ascii {

  predicate IsUpper(c: char) { 'A' <= c <= 'Z' }

  predicate IsLower(c: char) { 'a' <= c <= 'z' }

  /** Lower-cases one character. */
  function LowerChar(c: char): (d: char)
    ensures IsUpper(c) ==> IsLower(d) && d as int == c as int + 32
    ensures !IsUpper(c) ==> d == c
    ensures !IsUpper(d)
  {
    if IsUpper(c) then (c as int + 32) as char else c
  }

  /** Upper-cases one character. */
  function UpperChar(c: char): (d: char)
    ensures IsLower(c) ==> IsUpper(d) && d as int == c as int - 32
    ensures !IsLower(c) ==> d == c
    ensures !IsLower(d)
  {
    if IsLower(c) then (c as int - 32) as char else c
  }

  /** True when no character of `s` is an upper-case letter. */
  predicate AllLower(s: string) {
    forall i :: 0 <= i < |s| ==> !IsUpper(s[i])
  }

  /** `s.ToLowerInvariant()`: a character-by-character map. */
  function ToLower(s: string): (r: string)
    ensures |r| == |s|
    ensures forall i :: 0 <= i < |s| ==> r[i] == LowerChar(s[i])
  {
    seq(|s|, i requires 0 <= i < |s| => LowerChar(s[i]))
  }

  /** `s.ToUpperInvariant()`: a character-by-character map. */
  function ToUpper(s: string): (r: string)
    ensures |r| == |s|
    ensures forall i :: 0 <= i < |s| ==> r[i] == UpperChar(s[i])
  {
    seq(|s|, i requires 0 <= i < |s| => UpperChar(s[i]))
  }

  /** `a.Equals(b, StringComparison.OrdinalIgnoreCase)`: both sides are
      upper-cased and compared ordinally. */
  predicate EqualsIgnoreCase(a: string, b: string)
    ensures EqualsIgnoreCase(a, b) <==>
            |a| == |b| && forall i :: 0 <= i < |a| ==> UpperChar(a[i]) == UpperChar(b[i])
  {
    ToUpper(a) == ToUpper(b)
  }

  /** A lower-cased string has no upper-case letter. */
  lemma ToLowerAllLower(s: string)
    ensures AllLower(ToLower(s))
  {
  }

  /** Lower-casing a string that holds no upper-case letter changes nothing. */
  lemma ToLowerOfAllLower(s: string)
    requires AllLower(s)
    ensures ToLower(s) == s
  {
  }

  /** Lower-casing is idempotent. */
  lemma ToLowerIdempotent(s: string)
    ensures ToLower(ToLower(s)) == ToLower(s)
  {
  }

  /** Upper-casing first does not change what lower-casing gives. */
  lemma ToLowerOfToUpper(s: string)
    ensures ToLower(ToUpper(s)) == ToLower(s)
  {
  }

  /** Two strings lower-case alike exactly when they are equal ignoring case:
      lower-casing is a canonical form for ordinal ignore-case equality. */
  lemma ToLowerEqualIffEqualsIgnoreCase(a: string, b: string)
    ensures ToLower(a) == ToLower(b) <==> EqualsIgnoreCase(a, b)
  {
  }
}
