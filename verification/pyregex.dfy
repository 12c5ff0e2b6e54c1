/**
 * Python's `re.match(pattern, s)` for the one pattern shape the validators use,
 * `^[class]{lo,hi}$`, compiled without MULTILINE.
 *
 * Two details of Python's engine matter:
 * - in the two classes used here, `[a-fA-F0-9]` and `[1-9a-zA-Z^OIl]`, every
 *   character outside a range `x-y` is literal: the `^`, not in first
 *   position, is just the caret character;
 * - `$` matches at the end of the string and also just before a newline
 *   that is the last character of the string.
 */
module PyRegex {

  /** A non-negated bracket expression: its ranges `x-y` and its single characters. */
  datatype CharClass = CharClass(ranges: seq<(char, char)>, singles: seq<char>)

  /** The pattern `^[cls]{lo,hi}$`. */
  datatype BoundedPattern = BoundedPattern(cls: CharClass, lo: nat, hi: nat)

  predicate InClass(cls: CharClass, c: char) {
    || (exists i :: 0 <= i < |cls.ranges| && cls.ranges[i].0 <= c <= cls.ranges[i].1)
    || c in cls.singles
  }

  /** Every character of `s` is in the class. */
  predicate AllInClass(cls: CharClass, s: string) {
    forall i :: 0 <= i < |s| ==> InClass(cls, s[i])
  }

  /** `$` (no MULTILINE) succeeds at position `k` of `s`. */
  predicate AtDollar(s: string, k: nat)
    requires k <= |s|
  {
    k == |s| || (k == |s| - 1 && s[k] == '\n')
  }

  /** The repetition consumed the first `k` characters and `$` succeeds right after them. */
  ghost predicate MatchEndsAt(p: BoundedPattern, s: string, k: nat) {
    && p.lo <= k <= p.hi
    && k <= |s|
    && AllInClass(p.cls, s[..k])
    && AtDollar(s, k)
  }

  /** The pattern matches `s`: some admissible repetition count lets `$` succeed. */
  ghost predicate Matches(p: BoundedPattern, s: string) {
    exists k: nat :: MatchEndsAt(p, s, k)
  }

  /** The greedy repetition: the longest prefix of class characters, at most `hi` long. */
  function GreedyRun(cls: CharClass, s: string, hi: nat): (n: nat)
    ensures n <= hi && n <= |s|
    ensures AllInClass(cls, s[..n])
    ensures n < hi && n < |s| ==> !InClass(cls, s[n])
    decreases hi
  {
    if hi == 0 || |s| == 0 || !InClass(cls, s[0]) then 0
    else
      var rest := GreedyRun(cls, s[1..], hi - 1);
      assert s[..rest + 1] == [s[0]] + s[1..][..rest];
      1 + rest
  }

  /** Backtracking: give characters back one at a time, from `k` down to `lo`, until `$` succeeds. */
  function Backtrack(s: string, lo: nat, k: nat): (b: bool)
    requires k <= |s|
    ensures b <==> exists j: nat :: lo <= j <= k && AtDollar(s, j)
    decreases k
  {
    if k < lo then false
    else if AtDollar(s, k) then true
    else if k == 0 then false
    else Backtrack(s, lo, k - 1)
  }

  /** `re.match` of `^[cls]{lo,hi}$` against `s`, as the engine searches: greedy, then backtracking. */
  function Match(p: BoundedPattern, s: string): (b: bool)
    ensures b <==> Matches(p, s)
  {
    var run := GreedyRun(p.cls, s, p.hi);
    SearchAgreesWithMatches(p, s, run);
    Backtrack(s, p.lo, run)
  }

  /** Backtracking from the greedy run finds an end position exactly when one exists. */
  lemma SearchAgreesWithMatches(p: BoundedPattern, s: string, run: nat)
    requires run == GreedyRun(p.cls, s, p.hi)
    ensures Backtrack(s, p.lo, run) <==> Matches(p, s)
  {
    if Backtrack(s, p.lo, run) {
      var j: nat :| p.lo <= j <= run && AtDollar(s, j);
      assert s[..j] == s[..run][..j];
      assert MatchEndsAt(p, s, j);
    }
    if Matches(p, s) {
      var k: nat :| MatchEndsAt(p, s, k);
      assert k <= run;
    }
  }

  /** `s` without its final newline, if it has one: what `$` lets the repetition stop before. */
  function Body(s: string): (b: string)
    ensures s == b || s == b + "\n"
  {
    if |s| > 0 && s[|s| - 1] == '\n' then s[..|s| - 1] else s
  }

  /**
   * For a class without the newline character, the pattern accepts exactly the
   * strings whose body (the string less one final newline) has between `lo` and
   * `hi` characters, all in the class.
   */
  lemma MatchesIffBody(p: BoundedPattern, s: string)
    requires !InClass(p.cls, '\n')
    ensures Matches(p, s) <==> p.lo <= |Body(s)| <= p.hi && AllInClass(p.cls, Body(s))
  {
    var b := Body(s);
    if Matches(p, s) {
      var k: nat :| MatchEndsAt(p, s, k);
      assert k == |b|;
      assert s[..k] == b;
    }
    if p.lo <= |b| <= p.hi && AllInClass(p.cls, b) {
      assert s[..|b|] == b;
      assert MatchEndsAt(p, s, |b|);
    }
  }
}
