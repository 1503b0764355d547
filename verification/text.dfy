/** Case mappings on strings: JavaScript's lower-casing of a skill name, and
    the simple case folding a case-insensitive regular expression without the
    unicode flag applies to ASCII text. */
module Text {

  /** The Kelvin sign, U+212A, which lower-cases to the ASCII letter k. */
  const KelvinSign: char := '\U{212A}'

  /** Lower-cases one character as `toLowerCase` does for every character
      whose lower-case form is a single ASCII character: the ASCII capitals
      and the Kelvin sign. Every other character is kept. */
  function LowerChar(c: char): (r: char)
    ensures 'A' <= c <= 'Z' ==> r as int == c as int + 32
    ensures c == KelvinSign ==> r == 'k'
    ensures !('A' <= c <= 'Z') && c != KelvinSign ==> r == c
  {
    if 'A' <= c <= 'Z' then (c as int + 32) as char
    else if c == KelvinSign then 'k'
    else c
  }

  /** Lower-cases a string character by character. */
  function Lower(s: string): (r: string)
    ensures |r| == |s|
    ensures forall i :: 0 <= i < |s| ==> r[i] == LowerChar(s[i])
  {
    seq(|s|, i requires 0 <= i < |s| => LowerChar(s[i]))
  }

  /** True when `s` contains no character that `LowerChar` changes. */
  predicate IsLower(s: string)
  {
    forall i :: 0 <= i < |s| ==> !('A' <= s[i] <= 'Z') && s[i] != KelvinSign
  }

  /** Lower-casing yields a lower-case string, which lower-casing leaves alone. */
  lemma LowerIsIdempotent(s: string)
    ensures IsLower(Lower(s))
    ensures Lower(Lower(s)) == Lower(s)
  {
  }

  /** A string that is already lower case is its own lower-cased form. */
  lemma LowerOfLower(s: string)
    requires IsLower(s)
    ensures Lower(s) == s
  {
  }

  /** Folds one ASCII capital to its small letter; every other character,
      the Kelvin sign included, is kept. */
  function FoldChar(c: char): (r: char)
    ensures 'A' <= c <= 'Z' ==> r as int == c as int + 32
    ensures !('A' <= c <= 'Z') ==> r == c
  {
    if 'A' <= c <= 'Z' then (c as int + 32) as char else c
  }

  /** Folds a string character by character. */
  function Fold(s: string): (r: string)
    ensures |r| == |s|
    ensures forall i :: 0 <= i < |s| ==> r[i] == FoldChar(s[i])
  {
    seq(|s|, i requires 0 <= i < |s| => FoldChar(s[i]))
  }

  /** Two strings are equal up to the case of their ASCII letters. */
  predicate EqualIgnoringCase(a: string, b: string)
  {
    Fold(a) == Fold(b)
  }
}
