/**
 * HTML_TAG_PATTERN (core/regex_patterns.py:61):
 *   <([A-Za-z][A-Za-z0-9-]*)(?:\s+[^<>]*?)?>
 * Attribute text must start with whitespace, so "<br/>" does not match,
 * and it cannot contain '<' or '>', so a tag ends at its first '>'.
 */
module HtmlTagPattern {
  import opened Wrappers
  import opened Chars

  /** The optional group `\s+[^<>]*?` matches t[n..j]. */
  ghost predicate Attributes(t: string, n: int, j: int) {
    exists w :: n < w <= j && All(t, n, w, Space) && All(t, w, j, NotAngle)
  }

  /** t[i..e] is '<', a tag name ending at n, optional attributes and '>'. */
  ghost predicate TagSplit(t: string, i: int, n: int, e: int) {
    0 <= i && i + 3 <= e <= |t| && t[i] == '<' && IsLetter(t[i + 1]) && t[e - 1] == '>'
    && i + 2 <= n <= e - 1 && All(t, i + 2, n, LabelPart) && (n == e - 1 || Attributes(t, n, e - 1))
  }

  /** The pattern matches t[i..e]. */
  ghost predicate At(t: string, i: int, e: int) {
    exists n :: TagSplit(t, i, n, e)
  }

  /** Whitespace followed by any text without '<' or '>' is exactly what the
      attribute group accepts. */
  lemma AttributesIff(t: string, n: int, j: int)
    requires 0 <= n < j <= |t|
    ensures Attributes(t, n, j) <==> IsSpace(t[n]) && All(t, n + 1, j, NotAngle)
  {
    if IsSpace(t[n]) && All(t, n + 1, j, NotAngle) {
      assert All(t, n, n + 1, Space);
    }
  }

  /** In any match the tag name is the greedy run of [A-Za-z0-9-]. */
  lemma NameIsRun(t: string, i: nat, e: int, n: int)
    requires TagSplit(t, i, n, e)
    ensures n == RunEnd(t, i + 2, LabelPart)
  {
    if n < e - 1 {
      AttributesIff(t, n, e - 1);
    }
  }

  /** `HTML_TAG.is_match(s)`: '<', a letter, letters, digits or hyphens,
      then either '>' at once or whitespace, text without '<' or '>', and '>'. */
  function FullMatch(s: string): (r: bool)
    ensures r <==> At(s, 0, |s|)
  {
    if |s| >= 3 && s[0] == '<' && IsLetter(s[1]) && s[|s| - 1] == '>' then
      var n := RunEnd(s, 2, LabelPart);
      var ok := n == |s| - 1 || (n < |s| - 1 && IsSpace(s[n]) && All(s, n + 1, |s| - 1, NotAngle));
      assert ok <==> At(s, 0, |s|) by {
        if n < |s| - 1 {
          AttributesIff(s, n, |s| - 1);
        }
        if ok {
          assert TagSplit(s, 0, n, |s|);
        }
        if At(s, 0, |s|) {
          var n' :| TagSplit(s, 0, n', |s|);
          NameIsRun(s, 0, |s|, n');
        }
      }
      ok
    else
      false
  }

  /** The match `finditer` finds when it tries position i. The lazy `*?`
      stops at the first '>' after the whitespace, and that is also the only
      end the pattern allows. */
  function MatchAt(t: string, i: nat): (r: Option<nat>)
    requires i <= |t|
    ensures r.Some? ==> i < r.value <= |t|
    ensures forall e :: At(t, i, e) <==> r == Some(e)
  {
    if i + 2 <= |t| && t[i] == '<' && IsLetter(t[i + 1]) then
      var n := RunEnd(t, i + 2, LabelPart);
      var r: Option<nat> :=
        if n < |t| && t[n] == '>' then Some(n + 1)
        else if n < |t| && IsSpace(t[n]) then
          var j := RunEnd(t, n, NotAngle);
          if j < |t| && t[j] == '>' then Some(j + 1) else None
        else None;
      assert forall e :: At(t, i, e) <==> r == Some(e) by {
        forall e ensures At(t, i, e) <==> r == Some(e) {
          if At(t, i, e) {
            var n' :| TagSplit(t, i, n', e);
            NameIsRun(t, i, e, n');
            if n < e - 1 {
              AttributesIff(t, n, e - 1);
            }
          }
          if r == Some(e) {
            if n < e - 1 {
              AttributesIff(t, n, e - 1);
            }
            assert TagSplit(t, i, n, e);
          }
        }
      }
      r
    else
      None
  }

  /** A tag found inside a text also matches on its own. */
  lemma SliceMatches(t: string, i: nat, e: nat)
    requires At(t, i, e)
    ensures FullMatch(t[i..e])
  {
    var n :| TagSplit(t, i, n, e);
    var w := t[i..e];
    AllSlice(t, i, e, i + 2, n, LabelPart);
    if n < e - 1 {
      AttributesIff(t, n, e - 1);
      AttributesIff(w, n - i, e - 1 - i);
      AllSlice(t, i, e, n + 1, e - 1, NotAngle);
    }
    assert TagSplit(w, 0, n - i, e - i);
  }
}
