/**
 * ASCII character classes and case folding.
 * Python's `str.lower()` / `str.upper()` are modelled as ASCII case folding;
 * every string the validators accept is ASCII apart from a final newline.
 */
module Ascii {

  predicate IsUpper(c: char) { 'A' <= c <= 'Z' }

  predicate IsLower(c: char) { 'a' <= c <= 'z' }

  predicate IsLetter(c: char) { IsUpper(c) || IsLower(c) }

  predicate IsDigit(c: char) { '0' <= c <= '9' }

  /** A hexadecimal digit in either case. */
  predicate IsHexDigit(c: char) { IsDigit(c) || 'a' <= c <= 'f' || 'A' <= c <= 'F' }

  /** A word made only of lower-case letters, such as "true" or "create". */
  predicate IsLowerWord(w: string) {
    forall i :: 0 <= i < |w| ==> IsLower(w[i])
  }

  /** `c.lower()` on ASCII: upper-case letters move to lower case, everything else is kept. */
  function ToLower(c: char): (d: char)
    ensures !IsUpper(d)
    ensures IsLetter(d) <==> IsLetter(c)
    ensures IsHexDigit(d) <==> IsHexDigit(c)
    ensures !IsLetter(c) ==> d == c
  {
    if IsUpper(c) then (c as int - 'A' as int + 'a' as int) as char else c
  }

  /** `c.upper()` on ASCII: lower-case letters move to upper case, everything else is kept. */
  function ToUpper(c: char): (d: char)
    ensures !IsLower(d)
    ensures IsLetter(d) <==> IsLetter(c)
    ensures !IsLetter(c) ==> d == c
  {
    if IsLower(c) then (c as int - 'a' as int + 'A' as int) as char else c
  }

  /** `s.lower()`. */
  function Lower(s: string): (r: string)
    ensures |r| == |s|
    ensures forall i :: 0 <= i < |s| ==> r[i] == ToLower(s[i])
  {
    seq(|s|, i requires 0 <= i < |s| => ToLower(s[i]))
  }

  /** `s.upper()`. */
  function Upper(s: string): (r: string)
    ensures |r| == |s|
    ensures forall i :: 0 <= i < |s| ==> r[i] == ToUpper(s[i])
  {
    seq(|s|, i requires 0 <= i < |s| => ToUpper(s[i]))
  }

  /**
   * `s` spells the lower-case word `w` with each letter in either case:
   * the set of strings a case-insensitive comparison with `w` accepts.
   */
  ghost predicate IsCasingOf(s: string, w: string) {
    && |s| == |w|
    && forall i :: 0 <= i < |s| ==> s[i] == w[i] || s[i] == ToUpper(w[i])
  }

  /** Lower-casing leaves no upper-case letter behind. */
  lemma LowerHasNoUpper(s: string)
    ensures forall i :: 0 <= i < |Lower(s)| ==> !IsUpper(Lower(s)[i])
  {
  }

  /** Lower-casing twice is lower-casing once. */
  lemma LowerIdempotent(s: string)
    ensures Lower(Lower(s)) == Lower(s)
  {
  }

  /** `s.lower() == w` holds exactly for the casings of the lower-case word `w`. */
  lemma LowerEqualsIffCasing(s: string, w: string)
    requires IsLowerWord(w)
    ensures Lower(s) == w <==> IsCasingOf(s, w)
  {
    if Lower(s) == w {
      forall i | 0 <= i < |s|
        ensures s[i] == w[i] || s[i] == ToUpper(w[i])
      {
        assert ToLower(s[i]) == w[i];
      }
    }
    if IsCasingOf(s, w) {
      assert forall i :: 0 <= i < |s| ==> Lower(s)[i] == w[i];
    }
  }

  /** `s.upper() == w.upper()` holds exactly for the casings of the lower-case word `w`. */
  lemma UpperEqualsIffCasing(s: string, w: string)
    requires IsLowerWord(w)
    ensures Upper(s) == Upper(w) <==> IsCasingOf(s, w)
  {
    if Upper(s) == Upper(w) {
      forall i | 0 <= i < |s|
        ensures s[i] == w[i] || s[i] == ToUpper(w[i])
      {
        assert ToUpper(s[i]) == ToUpper(w[i]);
      }
    }
    if IsCasingOf(s, w) {
      assert forall i :: 0 <= i < |s| ==> Upper(s)[i] == Upper(w)[i];
    }
  }
}
