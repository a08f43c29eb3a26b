/**
 * String primitives with the semantics of the JavaScript operations the plugin
 * uses: substring search, `String.prototype.replace` with a string pattern, and
 * `String.prototype.split(...)[0]`. Strings are sequences of characters.
 */
module Text {
  import opened Wrappers

  /** The characters that `.` in a JavaScript regular expression does not match. */
  predicate IsLineTerminator(c: char)
  {
    c == '\n' || c == '\r' || c == '\U{2028}' || c == '\U{2029}'
  }

  predicate IsQuote(c: char)
  {
    c == '\'' || c == '"'
  }

  /** `pat` occurs in `s` starting at index `i`. */
  predicate OccursAt(s: string, pat: string, i: int)
  {
    0 <= i && i + |pat| <= |s| && s[i..i + |pat|] == pat
  }

  predicate Occurs(s: string, pat: string)
  {
    exists i | 0 <= i <= |s| :: OccursAt(s, pat, i)
  }

  /** `i` is the leftmost occurrence of `pat` in `s`. */
  predicate FirstOccurrence(s: string, pat: string, i: int)
  {
    OccursAt(s, pat, i) && forall m :: 0 <= m < i ==> !OccursAt(s, pat, m)
  }

  predicate EndsWith(s: string, suffix: string)
  {
    |suffix| <= |s| && s[|s| - |suffix|..] == suffix
  }

  /** The leftmost occurrence of `pat` in `s` at or after `from`, if any. */
  function IndexOf(s: string, pat: string, from: nat): (r: Option<nat>)
    ensures r.Some? ==> from <= r.value && OccursAt(s, pat, r.value)
    ensures r.Some? ==> forall m :: from <= m < r.value ==> !OccursAt(s, pat, m)
    ensures r.None? ==> forall m :: from <= m ==> !OccursAt(s, pat, m)
    decreases |s| - from
  {
    if from + |pat| > |s| then None
    else if s[from..from + |pat|] == pat then Some(from)
    else IndexOf(s, pat, from + 1)
  }

  /**
   * `s.replace(pat, rep)` for a string `pat` and a `rep` without `$` (which
   * JavaScript would expand as a replacement pattern): only the leftmost
   * occurrence is replaced, and `s` is returned as it is when `pat` does not
   * occur.
   */
  function ReplaceFirst(s: string, pat: string, rep: string): (r: string)
    ensures !Occurs(s, pat) ==> r == s
    ensures forall i :: FirstOccurrence(s, pat, i) ==> r == s[..i] + rep + s[i + |pat|..]
  {
    match IndexOf(s, pat, 0)
    case None => s
    case Some(i) =>
      assert forall j :: FirstOccurrence(s, pat, j) ==> j == i;
      s[..i] + rep + s[i + |pat|..]
  }

  /** `s.split(sep)[0]`: the part of `s` before the first `sep`, or all of `s`. */
  function BeforeFirst(s: string, sep: char): (r: string)
    ensures r <= s
    ensures sep !in r
    ensures |r| < |s| ==> s[|r|] == sep
  {
    if s == [] then []
    else if s[0] == sep then []
    else [s[0]] + BeforeFirst(s[1..], sep)
  }
}
