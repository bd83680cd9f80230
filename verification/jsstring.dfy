/** The two JavaScript string operations the id translation relies on:
    `indexOf` and `replace` with a string (not a regular-expression) pattern,
    which replaces the FIRST occurrence only. */
module JsString {
  import opened Wrappers

  /** `pat` occurs in `s` starting at position `i`. */
  predicate OccursAt(s: string, pat: string, i: nat) {
    i + |pat| <= |s| && s[i..i + |pat|] == pat
  }

  /** `pat` occurs somewhere in `s`. */
  predicate Contains(s: string, pat: string) {
    exists i: nat | i <= |s| :: OccursAt(s, pat, i)
  }

  /** `s.indexOf(pat, from)` for `from <= |s|` (the only positions used
      here): the first position at or after `from` where `pat` occurs, or
      `None` (JavaScript's -1). For `from > |s|` JavaScript clamps `from` to
      `|s|`, so an empty `pat` is found at `|s|`; the model answers `None`. */
  function IndexOf(s: string, pat: string, from: nat): (r: Option<nat>)
    ensures r.Some? ==> from <= r.value && OccursAt(s, pat, r.value)
    ensures r.Some? ==> forall j: nat :: from <= j < r.value ==> !OccursAt(s, pat, j)
    ensures r.None? ==> forall j: nat :: from <= j ==> !OccursAt(s, pat, j)
    decreases |s| - from
  {
    if from + |pat| > |s| then None
    else if OccursAt(s, pat, from) then Some(from)
    else IndexOf(s, pat, from + 1)
  }

  /** `s` begins with `pat`. */
  predicate StartsWith(s: string, pat: string) {
    |pat| <= |s| && s[..|pat|] == pat
  }

  /** `s.replace(pat, rep)` for a string `pat`: the first occurrence of `pat`
      is replaced by `rep`; a string without `pat` comes back unchanged. The
      model only uses an empty `rep`, so JavaScript's `$` substitution
      patterns in the replacement never arise. */
  function ReplaceFirst(s: string, pat: string, rep: string): (r: string)
    ensures !Contains(s, pat) ==> r == s
    ensures Contains(s, pat) ==>
              exists i: nat ::
                && OccursAt(s, pat, i)
                && (forall j: nat :: j < i ==> !OccursAt(s, pat, j))
                && r == s[..i] + rep + s[i + |pat|..]
    ensures StartsWith(s, pat) ==> r == rep + s[|pat|..]
  {
    match IndexOf(s, pat, 0)
    case None => s
    case Some(i) =>
      assert StartsWith(s, pat) ==> OccursAt(s, pat, 0);
      s[..i] + rep + s[i + |pat|..]
  }
}
