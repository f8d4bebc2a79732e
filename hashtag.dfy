/** HASHTAG_PATTERN, `\#[A-Za-z0-9_]+\b` (core/regex_patterns.py:64). */
module HashtagPattern {
  import opened Wrappers
  import opened Chars

  /** The pattern matches t[i..e]: a '#', one or more word characters, then
      \b at e, judged against the text around the match. */
  ghost predicate At(t: string, i: int, e: int) {
    0 <= i && i + 2 <= e <= |t| && t[i] == '#' && All(t, i + 1, e, Word) && Boundary(t, e)
  }

  /** `HASHTAG.is_match(s)`: a '#' followed by at least one of [A-Za-z0-9_]. */
  function FullMatch(s: string): (r: bool)
    ensures r <==> At(s, 0, |s|)
  {
    |s| >= 2 && s[0] == '#' && forall k :: 1 <= k < |s| ==> IsWord(s[k])
  }

  /** The match `finditer` finds when it tries position i: the greedy word
      run after the '#'. The end is unique, since \b cannot hold inside a run. */
  function MatchAt(t: string, i: nat): (r: Option<nat>)
    requires i <= |t|
    ensures r.Some? ==> i < r.value <= |t|
    ensures forall e :: At(t, i, e) <==> r == Some(e)
  {
    if i < |t| && t[i] == '#' then
      var e := RunEnd(t, i + 1, Word);
      if e > i + 1 then Some(e) else None
    else
      None
  }

  /** A match found inside a text also matches on its own. */
  lemma SliceMatches(t: string, i: nat, e: nat)
    requires At(t, i, e)
    ensures FullMatch(t[i..e])
  {
    AllSlice(t, i, e, i + 1, e, Word);
    SliceBoundaries(t, i, e);
    assert At(t[i..e], 0, e - i);
  }
}
