/**
 * CREDIT_CARD_PATTERN (core/regex_patterns.py:47-51), compiled with re.VERBOSE:
 *   \b \d{4}(?:[ -]\d{4}){3} \b
 * The class [ -] is matched afresh in each of the three gaps, so the
 * separators need not agree.
 */
module CreditCardPattern {
  import opened Wrappers
  import opened Chars

  /** [ -] */
  predicate IsSeparator(c: char) { c == ' ' || c == '-' }

  /** `(?:[ -]\d{4}){n}` matches t[j..e]. */
  ghost predicate Groups(t: string, j: int, e: int, n: nat)
    decreases n
  {
    if n == 0 then j == e
    else (0 <= j && j + 5 <= e <= |t| && IsSeparator(t[j]) && All(t, j + 1, j + 5, Digit)
          && Groups(t, j + 5, e, n - 1))
  }

  /** The pattern matches t[i..e], its two \b judged against the text around it. */
  ghost predicate At(t: string, i: int, e: int) {
    0 <= i && i + 4 <= e <= |t| && Boundary(t, i) && All(t, i, i + 4, Digit) && Groups(t, i + 4, e, 3)
      && Boundary(t, e)
  }

  /** The 19 characters from i are four groups of four digits with a space
      or a hyphen at offsets 4, 9 and 14, each chosen independently. */
  predicate CardShape(t: string, i: nat) {
    i + 19 <= |t| && forall j :: i <= j < i + 19 ==> CardChar(t[j], j - i)
  }

  /** What the card shape allows at offset k. */
  predicate CardChar(c: char, k: int) {
    if k % 5 == 4 then IsSeparator(c) else IsDigit(c)
  }

  lemma BodyIsCardShape(t: string, i: nat, e: int)
    ensures (i + 4 <= e <= |t| && All(t, i, i + 4, Digit) && Groups(t, i + 4, e, 3)) <==> (e == i + 19 && CardShape(t, i))
  {
    if e == i + 19 && CardShape(t, i) {
      forall j | i <= j < i + 19 && (j - i) % 5 != 4 ensures IsDigit(t[j]) {
        assert CardChar(t[j], j - i);
      }
      assert CardChar(t[i + 4], 4) && CardChar(t[i + 9], 9) && CardChar(t[i + 14], 14);
      assert Groups(t, i + 19, e, 0);
      assert Groups(t, i + 14, e, 1);
      assert Groups(t, i + 9, e, 2);
    }
    if i + 4 <= e <= |t| && All(t, i, i + 4, Digit) && Groups(t, i + 4, e, 3) {
      assert Groups(t, i + 9, e, 2);
      assert Groups(t, i + 14, e, 1);
      assert e == i + 19;
      forall j | i <= j < i + 19 ensures CardChar(t[j], j - i) {
        var k := j - i;
        if k < 5 {
        } else if k < 10 {
          assert k % 5 == k - 5;
        } else if k < 15 {
          assert k % 5 == k - 10;
        } else {
          assert k % 5 == k - 15;
        }
      }
    }
  }

  /** `CREDIT_CARD.is_match(s)`: exactly 19 characters of the card shape. */
  function FullMatch(s: string): (r: bool)
    ensures r <==> At(s, 0, |s|)
  {
    BodyIsCardShape(s, 0, |s|);
    |s| == 19 && CardShape(s, 0)
  }

  /** The match `finditer` finds when it tries position i; it has one
      possible end, 19 characters on. */
  function MatchAt(t: string, i: nat): (r: Option<nat>)
    requires i <= |t|
    ensures r.Some? ==> i < r.value <= |t|
    ensures forall e :: At(t, i, e) <==> r == Some(e)
  {
    if CardShape(t, i) && Boundary(t, i) && Boundary(t, i + 19) then
      BodyIsCardShape(t, i, i + 19);
      Some(i + 19)
    else
      assert forall e :: !At(t, i, e) by {
        forall e | At(t, i, e) ensures false {
          BodyIsCardShape(t, i, e);
        }
      }
      None
  }

  /** A match found inside a text also matches on its own. */
  lemma SliceMatches(t: string, i: nat, e: nat)
    requires At(t, i, e)
    ensures FullMatch(t[i..e])
  {
    BodyIsCardShape(t, i, e);
    var w := t[i..e];
    forall j | 0 <= j < 19 ensures CardChar(w[j], j) {
      assert CardChar(t[i + j], i + j - i);
    }
  }
}
