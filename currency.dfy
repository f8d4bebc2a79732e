/**
 * CURRENCY_PATTERN (core/regex_patterns.py:67-76), compiled with re.VERBOSE:
 *   \$ (?: \d{1,3}(?:,\d{3})+ | \d+ ) (?:\.\d{2})? \b
 */
module CurrencyPattern {
  import opened Wrappers
  import opened Chars

  /** `(?:,\d{3})+` matches t[b..a]. */
  ghost predicate Groups(t: string, b: int, a: int)
    decreases a - b
  {
    0 <= b && b + 4 <= a <= |t| && t[b] == ',' && All(t, b + 1, b + 4, Digit)
    && (b + 4 == a || Groups(t, b + 4, a))
  }

  /** `\d{1,3}(?:,\d{3})+` matches t[j..a], the leading digits ending at b. */
  ghost predicate Grouped(t: string, j: int, b: int, a: int) {
    j < b <= j + 3 && All(t, j, b, Digit) && Groups(t, b, a)
  }

  /** `\d+` matches t[j..a]. */
  predicate Plain(t: string, j: int, a: int) {
    j < a && All(t, j, a, Digit)
  }

  /** `(?:\.\d{2})?` matches t[a..e]. */
  predicate Cents(t: string, a: int, e: int) {
    e == a || (e == a + 3 && 0 <= a && e <= |t| && t[a] == '.' && All(t, a + 1, e, Digit))
  }

  /** `\d{1,3}(?:,\d{3})+|\d+` matches t[j..a]. */
  ghost predicate Amount(t: string, j: int, a: int) {
    Plain(t, j, a) || exists b :: Grouped(t, j, b, a)
  }

  /** t[i..e] is '$', an amount ending at a and optional cents. */
  ghost predicate Split(t: string, i: int, a: int, e: int) {
    0 <= i < |t| && t[i] == '$' && Amount(t, i + 1, a) && Cents(t, a, e)
  }

  /** The pattern matches t[i..e], its final \b judged against the text around it. */
  ghost predicate At(t: string, i: int, e: int) {
    (exists a :: Split(t, i, a, e)) && Boundary(t, e)
  }

  // ---------------------------------------------------------------------
  // The comma groups

  /** One or more groups ",ddd" fill t[b..a] exactly, position by position. */
  predicate GroupsShape(t: string, b: int, a: int) {
    0 <= b < a <= |t| && (a - b) % 4 == 0
    && forall k :: b <= k < a ==> if (k - b) % 4 == 0 then t[k] == ',' else IsDigit(t[k])
  }

  lemma {:induction false} GroupsIsShape(t: string, b: int, a: int)
    ensures Groups(t, b, a) <==> GroupsShape(t, b, a)
    decreases a - b
  {
    if 0 <= b && b + 4 < a <= |t| {
      GroupsIsShape(t, b + 4, a);
      if GroupsShape(t, b, a) {
        forall k | b + 4 <= k < a ensures if (k - (b + 4)) % 4 == 0 then t[k] == ',' else IsDigit(t[k]) {
          assert (k - (b + 4)) % 4 == (k - b) % 4;
        }
        assert t[b] == ',' && IsDigit(t[b + 1]) && IsDigit(t[b + 2]) && IsDigit(t[b + 3]);
      }
      if Groups(t, b, a) {
        forall k | b <= k < a ensures if (k - b) % 4 == 0 then t[k] == ',' else IsDigit(t[k]) {
          if k >= b + 4 {
            assert (k - (b + 4)) % 4 == (k - b) % 4;
          }
        }
      }
    } else if 0 <= b && b + 4 == a <= |t| {
      if GroupsShape(t, b, a) {
        assert t[b] == ',' && IsDigit(t[b + 1]) && IsDigit(t[b + 2]) && IsDigit(t[b + 3]);
      }
    }
  }

  /** A shorter run of groups from b is a prefix of a longer one. */
  lemma {:induction false} GroupsPrefix(t: string, b: int, a: int, g: int)
    requires Groups(t, b, a) && Groups(t, b, g) && a < g
    ensures Groups(t, a, g)
    decreases a - b
  {
    if b + 4 < a {
      GroupsPrefix(t, b + 4, a, g);
    }
  }

  /** Dropping the last group of two or more leaves a run of groups. */
  lemma {:induction false} GroupsDropLast(t: string, b: int, g: int)
    requires Groups(t, b, g) && b + 4 < g
    ensures Groups(t, b, g - 4)
    decreases g - b
  {
    if b + 8 < g {
      GroupsDropLast(t, b + 4, g);
    }
  }

  /** A run of groups ends with a digit. */
  lemma {:induction false} GroupsEndWithDigit(t: string, b: int, a: int)
    requires Groups(t, b, a)
    ensures IsDigit(t[a - 1])
    decreases a - b
  {
    if b + 4 < a {
      GroupsEndWithDigit(t, b + 4, a);
    }
  }

  /** The end of the greedy `(?:,\d{3})*` from b. */
  function GroupsEnd(t: string, b: nat): (g: nat)
    requires b <= |t|
    ensures b <= g <= |t| && (g == b || Groups(t, b, g))
    ensures forall a :: Groups(t, b, a) ==> a <= g
    decreases |t| - b
  {
    if b + 4 <= |t| && t[b] == ',' && All(t, b + 1, b + 4, Digit) then GroupsEnd(t, b + 4) else b
  }

  // ---------------------------------------------------------------------
  // Full match

  /** An amount in either form has no '.' in it and ends with a digit. */
  lemma AmountChars(t: string, j: int, a: int, k: int)
    requires Amount(t, j, a)
    requires j <= k < a
    ensures t[k] != '.' && IsDigit(t[a - 1])
  {
    if !Plain(t, j, a) {
      var b :| Grouped(t, j, b, a);
      GroupsIsShape(t, b, a);
      GroupsEndWithDigit(t, b, a);
      if k >= b {
        assert if (k - b) % 4 == 0 then t[k] == ',' else IsDigit(t[k]);
      }
    }
  }

  /** t[j..a] is an amount: plain digits, or one to three digits followed by
      comma groups. */
  predicate IsAmount(t: string, j: nat, a: int)
    requires j <= |t|
  {
    Plain(t, j, a) || (var b := RunEnd(t, j, Digit); j < b <= j + 3 && GroupsShape(t, b, a))
  }

  lemma IsAmountIff(t: string, j: nat, a: int)
    requires j <= |t|
    ensures IsAmount(t, j, a) <==> Amount(t, j, a)
  {
    var b := RunEnd(t, j, Digit);
    GroupsIsShape(t, b, a);
    if exists b' :: Grouped(t, j, b', a) {
      var b' :| Grouped(t, j, b', a);
      GroupsIsShape(t, b', a);
      assert b' == b;
    }
    if j < b <= j + 3 && GroupsShape(t, b, a) {
      assert Grouped(t, j, b, a);
    }
  }

  /** `CURRENCY.is_match(s)`: '$', an amount, then ".dd" or nothing. */
  function FullMatch(s: string): (r: bool)
    ensures r <==> At(s, 0, |s|)
  {
    var a := if |s| >= 3 && s[|s| - 3] == '.' then |s| - 3 else |s|;
    var ok := |s| >= 2 && s[0] == '$' && 1 <= a && Cents(s, a, |s|) && IsAmount(s, 1, a);
    assert ok <==> At(s, 0, |s|) by {
      if |s| >= 2 && 1 <= a {
        IsAmountIff(s, 1, a);
      }
      if ok {
        assert Split(s, 0, a, |s|);
        AmountChars(s, 1, a, 1);
      }
      if At(s, 0, |s|) {
        var a' :| Split(s, 0, a', |s|);
        IsAmountIff(s, 1, a');
        if a' == |s| && |s| >= 4 {
          AmountChars(s, 1, a', |s| - 3);
        }
        assert a' == a;
      }
    }
    ok
  }

  // ---------------------------------------------------------------------
  // Search

  /** Cents and then \b after an amount that ends at a: the engine tries
      ".dd" first, then nothing. */
  function Tail(t: string, a: nat): (r: Option<nat>)
    requires a <= |t|
    ensures r.Some? ==> a <= r.value <= |t| && Cents(t, a, r.value) && Boundary(t, r.value)
    ensures forall e :: Cents(t, a, e) && Boundary(t, e) ==> r.Some? && e <= r.value
  {
    if a + 3 <= |t| && t[a] == '.' && All(t, a + 1, a + 3, Digit) && Boundary(t, a + 3) then Some(a + 3)
    else if Boundary(t, a) then Some(a)
    else None
  }

  /** The grouped branch has leading digits t[..b] and its comma groups end
      at a, and the match ends at e. */
  ghost predicate GroupedTail(t: string, b: int, a: int, e: int) {
    Groups(t, b, a) && Cents(t, a, e) && Boundary(t, e)
  }

  /** The engine's backtracking over the number of comma groups: the greedy
      count first, then one group fewer, and so on. */
  function GroupedMatch(t: string, b: nat, g: nat): (r: Option<nat>)
    requires b <= g <= |t| && (g == b || Groups(t, b, g))
    ensures r.Some? ==> b + 4 <= r.value <= |t| && exists a :: a <= g && GroupedTail(t, b, a, r.value)
    ensures forall a, e :: a <= g && GroupedTail(t, b, a, e) ==> r.Some? && e <= r.value
    decreases g
  {
    if g == b then None
    else
      var r := Tail(t, g);
      if r.Some? then
        assert GroupedTail(t, b, g, r.value);
        assert forall a, e :: a <= g && GroupedTail(t, b, a, e) ==> e <= r.value by {
          forall a, e | a <= g && GroupedTail(t, b, a, e) ensures e <= r.value {
            if a < g {
              GroupsPrefix(t, b, a, g);
            }
          }
        }
        r
      else
        assert forall a, e :: GroupedTail(t, b, a, e) ==> a != g;
        assert g - 4 > b ==> Groups(t, b, g - 4) by {
          if g - 4 > b {
            GroupsDropLast(t, b, g);
          }
        }
        assert forall a :: Groups(t, b, a) && a < g ==> a <= g - 4 by {
          forall a | Groups(t, b, a) && a < g ensures a <= g - 4 {
            GroupsPrefix(t, b, a, g);
          }
        }
        GroupedMatch(t, b, g - 4)
  }

  /** A grouped amount after '$' at i, with the leading digits t[i+1..b],
      and cents and \b to e make a match. */
  lemma GroupedFound(t: string, i: nat, b: nat, g: nat, e: int)
    requires i < |t| && t[i] == '$' && b == RunEnd(t, i + 1, Digit) && i + 1 < b <= i + 4
    requires exists a :: a <= g && GroupedTail(t, b, a, e)
    ensures At(t, i, e)
  {
    var a :| a <= g && GroupedTail(t, b, a, e);
    assert Grouped(t, i + 1, b, a);
    assert Split(t, i, a, e);
  }

  /** A plain amount t[i+1..b] after '$' at i, with cents and \b to e,
      makes a match. */
  lemma PlainFound(t: string, i: nat, b: nat, e: int)
    requires i < |t| && t[i] == '$' && b == RunEnd(t, i + 1, Digit) && b > i + 1
    requires Cents(t, b, e) && Boundary(t, e)
    ensures At(t, i, e)
  {
    assert Split(t, i, b, e);
  }

  /** Every match from i takes the whole digit run after '$' as a plain
      amount, or the grouped branch with up to three leading digits. */
  lemma AtBranches(t: string, i: nat, e: int)
    requires At(t, i, e)
    ensures i < |t| && t[i] == '$'
    ensures var b := RunEnd(t, i + 1, Digit);
      (b > i + 1 && Cents(t, b, e) && Boundary(t, e))
      || (i + 1 < b <= i + 4 && exists a :: a <= GroupsEnd(t, b) && GroupedTail(t, b, a, e))
  {
    var a :| Split(t, i, a, e);
    var b := RunEnd(t, i + 1, Digit);
    if Plain(t, i + 1, a) {
      assert a == b;
    } else {
      var b' :| Grouped(t, i + 1, b', a);
      assert b' == b;
      assert GroupedTail(t, b, a, e);
    }
  }

  /** The match `finditer` finds when it tries position i. The grouped
      branch is tried first; the engine's first success is the longest
      match the pattern allows at i. */
  function MatchAt(t: string, i: nat): (r: Option<nat>)
    requires i <= |t|
    ensures r.Some? ==> i < r.value <= |t| && At(t, i, r.value)
    ensures forall e :: At(t, i, e) ==> r.Some? && e <= r.value
  {
    if i < |t| && t[i] == '$' then
      var b := RunEnd(t, i + 1, Digit);
      var g := GroupsEnd(t, b);
      var grouped := if i + 1 < b <= i + 4 then GroupedMatch(t, b, g) else None;
      var plain := if b > i + 1 then Tail(t, b) else None;
      var r := if grouped.Some? then grouped else plain;
      assert r.Some? ==> At(t, i, r.value) by {
        if grouped.Some? {
          GroupedFound(t, i, b, g, grouped.value);
        } else if plain.Some? {
          PlainFound(t, i, b, plain.value);
        }
      }
      assert forall e :: At(t, i, e) ==> r.Some? && e <= r.value by {
        forall e | At(t, i, e) ensures r.Some? && e <= r.value {
          AtBranches(t, i, e);
        }
      }
      r
    else
      assert forall e :: !At(t, i, e);
      None
  }

  /** An amount read in the slice t[i..e] that contains it. */
  lemma AmountSlice(t: string, i: nat, e: nat, a: nat)
    requires i + 1 <= a <= e <= |t| && Amount(t, i + 1, a)
    ensures Amount(t[i..e], 1, a - i)
  {
    var w := t[i..e];
    if Plain(t, i + 1, a) {
      AllSlice(t, i, e, i + 1, a, Digit);
    } else {
      var b :| Grouped(t, i + 1, b, a);
      AllSlice(t, i, e, i + 1, b, Digit);
      GroupsIsShape(t, b, a);
      GroupsIsShape(w, b - i, a - i);
      forall k | b - i <= k < a - i
        ensures if (k - (b - i)) % 4 == 0 then w[k] == ',' else IsDigit(w[k])
      {
        assert w[k] == t[k + i];
        assert k - (b - i) == k + i - b;
      }
      assert Grouped(w, 1, b - i, a - i);
    }
  }

  /** An amount found inside a text also matches on its own: it ends with
      a digit, so the final \b holds in it too. */
  lemma SliceMatches(t: string, i: nat, e: nat)
    requires At(t, i, e)
    ensures FullMatch(t[i..e])
  {
    var a :| Split(t, i, a, e);
    var w := t[i..e];
    AmountChars(t, i + 1, a, i + 1);
    assert e > a ==> In(Digit, t[e - 1]);
    SliceBoundaries(t, i, e);
    AmountSlice(t, i, e, a);
    if e > a {
      AllSlice(t, i, e, a + 1, e, Digit);
    }
    assert Split(w, 0, a - i, e - i);
  }
}
