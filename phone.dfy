/**
 * PHONE_PATTERN (core/regex_patterns.py:44), anchored and not MULTILINE:
 *   ^(?:\(\d{3}\)\s*\d{3}[-.]\d{4}|\d{3}[-.]\d{3}[-.]\d{4})$
 * Each [-.] is matched on its own, so mixed separators are accepted.
 */
module PhonePattern {
  import opened Wrappers
  import opened Chars

  /** [-.] */
  predicate IsSeparator(c: char) { c == '-' || c == '.' }

  /** `\(\d{3}\)\s*\d{3}[-.]\d{4}` matches t[i..e]. */
  predicate Parenthesized(t: string, i: int, e: int) {
    0 <= i && i + 13 <= e <= |t| && t[i] == '(' && All(t, i + 1, i + 4, Digit) && t[i + 4] == ')'
    && All(t, i + 5, e - 8, Space) && All(t, e - 8, e - 5, Digit) && IsSeparator(t[e - 5])
    && All(t, e - 4, e, Digit)
  }

  /** `\d{3}[-.]\d{3}[-.]\d{4}` matches t[i..e]. */
  predicate Dashed(t: string, i: int, e: int) {
    0 <= i && e == i + 12 && e <= |t| && All(t, i, i + 3, Digit) && IsSeparator(t[i + 3])
    && All(t, i + 4, i + 7, Digit) && IsSeparator(t[i + 7]) && All(t, i + 8, i + 12, Digit)
  }

  /** `$` without MULTILINE: the end of the text, or just before a newline
      that ends it. */
  predicate EndAnchor(t: string, e: int) {
    e == |t| || (0 <= e && e + 1 == |t| && t[e] == '\n')
  }

  /** The pattern matches t[i..e]; `^` holds only at the start of the text. */
  ghost predicate At(t: string, i: int, e: int) {
    i == 0 && (Parenthesized(t, 0, e) || Dashed(t, 0, e)) && EndAnchor(t, e)
  }

  /** `PHONE.is_match(s)`: either "(DDD)", any run of whitespace, "DDD",
      a separator and "DDDD"; or "DDD", a separator, "DDD", a separator and
      "DDDD", with '-' or '.' for each separator on its own. */
  function FullMatch(s: string): (r: bool)
    ensures r <==> At(s, 0, |s|)
  {
    if |s| >= 13 && s[0] == '(' then
      var w := RunEnd(s, 5, Space);
      var ok := All(s, 1, 4, Digit) && s[4] == ')' && w == |s| - 8 && All(s, w, w + 3, Digit)
        && IsSeparator(s[w + 3]) && All(s, w + 4, |s|, Digit);
      assert ok <==> Parenthesized(s, 0, |s|) by {
        if Parenthesized(s, 0, |s|) {
          assert !In(Space, s[|s| - 8]);
        }
      }
      ok
    else
      |s| == 12 && All(s, 0, 3, Digit) && IsSeparator(s[3]) && All(s, 4, 7, Digit) && IsSeparator(s[7])
      && All(s, 8, 12, Digit)
  }

  /** The match `finditer` finds when it tries position i: none except at
      the start of the text, and there only one end is possible. */
  function MatchAt(t: string, i: nat): (r: Option<nat>)
    requires i <= |t|
    ensures r.Some? ==> i < r.value <= |t|
    ensures forall e :: At(t, i, e) <==> r == Some(e)
  {
    if i != 0 || |t| == 0 then None
    else
      var e := if t[0] == '(' && |t| >= 5 then RunEnd(t, 5, Space) + 8 else 12;
      assert forall e' :: At(t, 0, e') ==> e' == e by {
        forall e' | At(t, 0, e') ensures e' == e {
          if Parenthesized(t, 0, e') {
            assert !In(Space, t[e' - 8]);
          }
        }
      }
      if (Parenthesized(t, 0, e) || Dashed(t, 0, e)) && EndAnchor(t, e) then Some(e) else None
  }

  /** The one match inside a text also matches on its own. */
  lemma SliceMatches(t: string, i: nat, e: nat)
    requires At(t, i, e)
    ensures FullMatch(t[i..e])
  {
    var w := t[i..e];
    assert forall k :: 0 <= k < |w| ==> w[k] == t[k];
    if Parenthesized(t, 0, e) {
      AllSlice(t, 0, e, 1, 4, Digit);
      AllSlice(t, 0, e, 5, e - 8, Space);
      AllSlice(t, 0, e, e - 8, e - 5, Digit);
      AllSlice(t, 0, e, e - 4, e, Digit);
      assert Parenthesized(w, 0, |w|);
    } else {
      AllSlice(t, 0, e, 0, 3, Digit);
      AllSlice(t, 0, e, 4, 7, Digit);
      AllSlice(t, 0, e, 8, 12, Digit);
      assert Dashed(w, 0, |w|);
    }
  }
}
