/**
 * EMAIL_PATTERN (core/regex_patterns.py:25-32), compiled with re.VERBOSE so
 * that its layout and comments are not part of it:
 *   \b [A-Za-z0-9._%+-]+ @ [A-Za-z0-9.-]+ \. [A-Za-z]{2,} \b
 */
module EmailPattern {
  import opened Wrappers
  import opened Chars

  /** t[i..e] splits as local part t[i..a], '@' at a, domain t[a+1..d], '.'
      at d and a top-level domain t[d+1..e] of at least two letters. */
  ghost predicate Split(t: string, i: int, a: int, d: int, e: int) {
    0 <= i < a && a + 1 < d && d + 3 <= e <= |t|
    && All(t, i, a, LocalPart) && t[a] == '@'
    && All(t, a + 1, d, DomainPart) && t[d] == '.'
    && All(t, d + 1, e, Letter)
  }

  /** The pattern matches t[i..e], its two \b judged against the text around it. */
  ghost predicate At(t: string, i: int, e: int) {
    0 <= i <= e <= |t| && Boundary(t, i) && (exists a, d :: Split(t, i, a, d, e)) && Boundary(t, e)
  }

  /** `EMAIL.is_match(s)`: the '@' is the first character outside the local
      part's class, the '.' before the top-level domain is the one before the
      trailing run of letters, and the first character is a word character. */
  function FullMatch(s: string): (r: bool)
    ensures r <==> At(s, 0, |s|)
  {
    var a := RunEnd(s, 0, LocalPart);
    var z := RunStart(s, |s|, Letter);
    assert At(s, 0, |s|) ==> s[a] == '@' && z + 2 <= |s| && s[z - 1] == '.' by {
      if At(s, 0, |s|) {
        var a', d' :| Split(s, 0, a', d', |s|);
        FullSplitFollowsRuns(s, a', d');
      }
    }
    var ok := 0 < a < |s| && s[a] == '@' && IsWord(s[0]) && a + 2 < z && z + 2 <= |s| && s[z - 1] == '.'
      && All(s, a + 1, z - 1, DomainPart);
    assert ok ==> Split(s, 0, a, z - 1, |s|);
    ok
  }

  /** A top-level domain after the '.' at d that ends at e, where \b holds. */
  ghost predicate TldAt(t: string, d: int, e: int) {
    0 <= d && d + 3 <= e <= |t| && t[d] == '.' && All(t, d + 1, e, Letter) && Boundary(t, e)
  }

  lemma TldEndIsRunEnd(t: string, d: nat, e: int)
    requires TldAt(t, d, e)
    ensures e == RunEnd(t, d + 1, Letter)
  {
  }

  /** In any split, '@' is where the local part's greedy run stops and the
      last '.' lies inside the domain's greedy run. */
  lemma SplitFollowsRuns(t: string, i: nat, a: int, d: int, e: int)
    requires Split(t, i, a, d, e)
    ensures a == RunEnd(t, i, LocalPart) && d < RunEnd(t, a + 1, DomainPart)
  {
  }

  /** In a full match the '.' before the top-level domain is the one just
      before the trailing run of letters. */
  lemma FullSplitFollowsRuns(s: string, a: int, d: int)
    requires Split(s, 0, a, d, |s|)
    ensures a == RunEnd(s, 0, LocalPart) && d + 1 == RunStart(s, |s|, Letter)
  {
    SplitFollowsRuns(s, 0, a, d, |s|);
  }

  /** The engine's backtracking over `[A-Za-z0-9.-]+\.`: the dots d with
      a + 1 < d < hi are tried from the right, and the first that is followed
      by a valid top-level domain gives the match. */
  function LastTld(t: string, a: nat, hi: nat): (r: Option<nat>)
    requires hi <= |t|
    ensures r.Some? ==> exists d :: a + 2 <= d < hi && TldAt(t, d, r.value)
    ensures forall d, e :: a + 2 <= d < hi && TldAt(t, d, e) ==> r.Some? && e <= r.value
  {
    if hi < a + 3 then None
    else
      var e := RunEnd(t, hi, Letter);
      if t[hi - 1] == '.' && e >= hi + 2 && Boundary(t, e) then
        assert TldAt(t, hi - 1, e);
        forall d, e' | a + 2 <= d < hi && TldAt(t, d, e') ensures e' <= e {
          TldEndIsRunEnd(t, d, e');
        }
        Some(e)
      else
        forall d, e' | a + 2 <= d < hi && TldAt(t, d, e') ensures d < hi - 1 {
          TldEndIsRunEnd(t, d, e');
        }
        LastTld(t, a, hi - 1)
  }

  /** The match `finditer` finds when it tries position i. The local part is
      the greedy run, which must stop at '@'; of all the ends the pattern
      allows, the engine's first is the longest. */
  function MatchAt(t: string, i: nat): (r: Option<nat>)
    requires i <= |t|
    ensures r.Some? ==> i < r.value <= |t| && At(t, i, r.value)
    ensures forall e :: At(t, i, e) ==> r.Some? && e <= r.value
  {
    if !Boundary(t, i) then None
    else
      var a := RunEnd(t, i, LocalPart);
      if a == i || a == |t| || t[a] != '@' then None
      else
        var m := RunEnd(t, a + 1, DomainPart);
        var r := LastTld(t, a, m);
        assert forall e :: At(t, i, e) ==> r.Some? && e <= r.value by {
          forall e | At(t, i, e) ensures r.Some? && e <= r.value {
            var a', d' :| Split(t, i, a', d', e);
            SplitFollowsRuns(t, i, a', d', e);
            assert TldAt(t, d', e);
          }
        }
        if r.Some? then
          assert At(t, i, r.value) by {
            var d :| a + 2 <= d < m && TldAt(t, d, r.value);
            assert Split(t, i, a, d, r.value);
          }
          r
        else
          r
  }

  /** An address found inside a text matches on its own exactly when it
      starts with a word character: inside the text, the \b before it may
      instead be supplied by the character in front of it. */
  lemma SliceMatches(t: string, i: nat, e: nat)
    requires At(t, i, e)
    ensures FullMatch(t[i..e]) <==> IsWord(t[i])
  {
    var a, d :| Split(t, i, a, d, e);
    var w := t[i..e];
    SliceBoundaries(t, i, e);
    if IsWord(t[i]) {
      AllSlice(t, i, e, i, a, LocalPart);
      AllSlice(t, i, e, a + 1, d, DomainPart);
      AllSlice(t, i, e, d + 1, e, Letter);
      assert Split(w, 0, a - i, d - i, e - i);
    }
  }
}
