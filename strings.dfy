/** JavaScript's `String.prototype.replace` called with a string pattern and
    a replacement without `$` patterns (the service only passes `''`): only
    the FIRST occurrence of the pattern is replaced, and the replacement is
    copied literally. */
module Strings {

  import opened Exceptions

  /** `pat` occurs in `s` starting at index `i`. */
  predicate OccursAt(s: string, pat: string, i: nat)
  {
    i + |pat| <= |s| && s[i..i + |pat|] == pat
  }

  /** `i` is the first index at which `pat` occurs in `s`. */
  predicate FirstOccurrence(s: string, pat: string, i: nat)
  {
    OccursAt(s, pat, i) && forall j :: 0 <= j < i ==> !OccursAt(s, pat, j)
  }

  /** Moving one character to the right in `s` is moving to the start of `s[1..]`. */
  lemma OccursInTail(s: string, pat: string, i: nat)
    requires s != []
    ensures OccursAt(s, pat, i + 1) <==> OccursAt(s[1..], pat, i)
  {
  }

  /** The index of the first occurrence of `pat` in `s` (`indexOf`), if any. */
  function IndexOf(s: string, pat: string): (r: Option<nat>)
    ensures r.Some? ==> FirstOccurrence(s, pat, r.value)
    ensures r.None? ==> forall i :: 0 <= i <= |s| ==> !OccursAt(s, pat, i)
    decreases |s|
  {
    if OccursAt(s, pat, 0) then
      Some(0)
    else if s == [] then
      None
    else
      var tail := IndexOf(s[1..], pat);
      forall i: nat | 0 < i ensures OccursAt(s, pat, i) <==> OccursAt(s[1..], pat, i - 1) {
        OccursInTail(s, pat, i - 1);
      }
      match tail
      case None => None
      case Some(k) =>
        Some(k + 1)
  }

  /** `s.replace(pat, rep)`: when `pat` does not occur the string is returned
      unchanged; otherwise its first occurrence is swapped for `rep`. */
  function ReplaceFirst(s: string, pat: string, rep: string): (r: string)
    ensures (forall i :: 0 <= i <= |s| ==> !OccursAt(s, pat, i)) ==> r == s
    ensures forall i :: 0 <= i <= |s| && FirstOccurrence(s, pat, i) ==>
              r == s[..i] + rep + s[i + |pat|..]
  {
    match IndexOf(s, pat)
    case None => s
    case Some(i) => s[..i] + rep + s[i + |pat|..]
  }

  /** A string that starts with the pattern loses exactly that prefix. */
  lemma {:induction false} ReplacePrefix(pat: string, rest: string)
    ensures ReplaceFirst(pat + rest, pat, "") == rest
  {
  }
}
