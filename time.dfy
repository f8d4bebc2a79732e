/**
 * The three time patterns (core/regex_patterns.py:54-58):
 *   TIME_24H_PATTERN       \b(?:[01]?\d|2[0-3]):[0-5]\d\b
 *   TIME_12H_PATTERN       \b(?:1[0-2]|0?[1-9]):[0-5]\d(?:\s?[APap][Mm])\b
 *   TIME_COMBINED_PATTERN  (?:<24-hour>)|(?:<12-hour>)
 * The combined pattern is an ordered alternation: at each position the
 * 24-hour branch is tried first.
 */
module TimePattern {
  import opened Wrappers
  import opened Chars

  /** `[01]?\d|2[0-3]` matches t[i..c]. */
  predicate Hour24(t: string, i: int, c: int) {
    0 <= i && c <= |t|
    && ((c == i + 1 && IsDigit(t[i]))
        || (c == i + 2 && (t[i] == '0' || t[i] == '1') && IsDigit(t[i + 1]))
        || (c == i + 2 && t[i] == '2' && '0' <= t[i + 1] <= '3'))
  }

  /** `1[0-2]|0?[1-9]` matches t[i..c]. */
  predicate Hour12(t: string, i: int, c: int) {
    0 <= i && c <= |t|
    && ((c == i + 2 && t[i] == '1' && '0' <= t[i + 1] <= '2')
        || (c == i + 1 && '1' <= t[i] <= '9')
        || (c == i + 2 && t[i] == '0' && '1' <= t[i + 1] <= '9'))
  }

  /** `:[0-5]\d` matches t[c..c+3]. */
  predicate Minutes(t: string, c: int) {
    0 <= c && c + 3 <= |t| && t[c] == ':' && '0' <= t[c + 1] <= '5' && IsDigit(t[c + 2])
  }

  /** `[APap][Mm]` matches t[j..j+2]. */
  predicate AmPm(t: string, j: int) {
    0 <= j && j + 2 <= |t| && t[j] in {'A', 'P', 'a', 'p'} && t[j + 1] in {'M', 'm'}
  }

  /** `\s?[APap][Mm]` matches t[j..e]. */
  predicate Meridiem(t: string, j: int, e: int) {
    (e == j + 2 && AmPm(t, j)) || (e == j + 3 && 0 <= j < |t| && IsSpace(t[j]) && AmPm(t, j + 1))
  }

  /** TIME_24H_PATTERN matches t[i..e], its \b judged against the text around it. */
  ghost predicate At24(t: string, i: int, e: int) {
    0 <= i && i + 4 <= e <= |t| && Boundary(t, i) && Hour24(t, i, e - 3) && Minutes(t, e - 3) && Boundary(t, e)
  }

  /** TIME_12H_PATTERN matches t[i..e], the hour ending at c. */
  ghost predicate At12(t: string, i: int, e: int) {
    0 <= i <= e <= |t| && Boundary(t, i)
    && (exists c :: Hour12(t, i, c) && Minutes(t, c) && Meridiem(t, c + 3, e))
    && Boundary(t, e)
  }

  /** The value of the decimal numeral t[i..j]. */
  function Value(t: string, i: int, j: int): nat
    requires All(t, i, j, Digit)
    decreases j - i
  {
    if i == j then 0 else 10 * Value(t, i, j - 1) + (t[j - 1] as int - '0' as int)
  }

  lemma Hour24IsValue(t: string, i: nat, c: int)
    requires c == i + 1 || c == i + 2
    ensures Hour24(t, i, c) <==> All(t, i, c, Digit) && Value(t, i, c) <= 23
  {
    if All(t, i, c, Digit) {
      assert Value(t, i, i) == 0;
    }
  }

  lemma Hour12IsValue(t: string, i: nat, c: int)
    requires c == i + 1 || c == i + 2
    ensures Hour12(t, i, c) <==> All(t, i, c, Digit) && 1 <= Value(t, i, c) <= 12
  {
    if All(t, i, c, Digit) {
      assert Value(t, i, i) == 0;
    }
  }

  lemma MinutesIsValue(t: string, c: nat)
    requires c + 3 <= |t|
    ensures Minutes(t, c) <==> t[c] == ':' && All(t, c + 1, c + 3, Digit) && Value(t, c + 1, c + 3) <= 59
  {
    if All(t, c + 1, c + 3, Digit) {
      assert Value(t, c + 1, c + 1) == 0;
    }
  }

  /** The hour and the minutes of a time split at the colon c: a one- or
      two-digit hour, then ':' and two digits. */
  predicate ClockDigits(s: string, c: int) {
    (c == 1 || c == 2) && c + 3 <= |s| && All(s, 0, c, Digit) && s[c] == ':' && All(s, c + 1, c + 3, Digit)
  }

  /** `TIME_24H.is_match(s)`: H:MM or HH:MM with hour 0-23 (a leading zero
      is allowed) and minute 00-59. */
  function FullMatch24(s: string): (r: bool)
    ensures r <==> At24(s, 0, |s|)
  {
    var c := |s| - 3;
    if c == 1 || c == 2 then
      Hour24IsValue(s, 0, c);
      MinutesIsValue(s, c);
      ClockDigits(s, c) && Value(s, 0, c) <= 23 && Value(s, c + 1, c + 3) <= 59
    else
      false
  }

  /** `TIME_12H.is_match(s)`: H:MM or HH:MM with hour 1-12 (a leading zero
      only before 1-9), minute 00-59, at most one whitespace character, then
      AM or PM in either case. */
  function FullMatch12(s: string): (r: bool)
    ensures r <==> At12(s, 0, |s|)
  {
    var c := RunEnd(s, 0, Digit);
    var ok := (c == 1 || c == 2) && ClockDigits(s, c) && 1 <= Value(s, 0, c) <= 12
      && Value(s, c + 1, c + 3) <= 59 && Meridiem(s, c + 3, |s|);
    assert ok <==> At12(s, 0, |s|) by {
      if c == 1 || c == 2 {
        Hour12IsValue(s, 0, c);
        if c + 3 <= |s| {
          MinutesIsValue(s, c);
        }
      }
      if At12(s, 0, |s|) {
        var c' :| Hour12(s, 0, c') && Minutes(s, c') && Meridiem(s, c' + 3, |s|);
        assert c' == c;
        Hour12IsValue(s, 0, c);
        MinutesIsValue(s, c);
      }
    }
    ok
  }

  /** `TIME.is_match(s)`: either branch matches the whole of s. */
  function FullMatch(s: string): (r: bool)
    ensures r <==> At24(s, 0, |s|) || At12(s, 0, |s|)
  {
    FullMatch24(s) || FullMatch12(s)
  }

  /** The match TIME_24H's `finditer` finds when it tries position i. The
      colon is at i + 1 or at i + 2, never both, so the end is unique. */
  function MatchAt24(t: string, i: nat): (r: Option<nat>)
    requires i <= |t|
    ensures r.Some? ==> i < r.value <= |t|
    ensures forall e :: At24(t, i, e) <==> r == Some(e)
  {
    var c := if i + 1 < |t| && t[i + 1] == ':' then i + 1 else i + 2;
    if Boundary(t, i) && Hour24(t, i, c) && Minutes(t, c) && Boundary(t, c + 3) then Some(c + 3) else None
  }

  /** The match TIME_12H's `finditer` finds when it tries position i. The
      optional whitespace before AM/PM is taken when it is there; the end is
      unique. */
  function MatchAt12(t: string, i: nat): (r: Option<nat>)
    requires i <= |t|
    ensures r.Some? ==> i < r.value <= |t|
    ensures forall e :: At12(t, i, e) <==> r == Some(e)
  {
    var c := if i + 1 < |t| && t[i + 1] == ':' then i + 1 else i + 2;
    var e := if c + 3 < |t| && IsSpace(t[c + 3]) then c + 6 else c + 5;
    if Boundary(t, i) && Hour12(t, i, c) && Minutes(t, c) && Meridiem(t, c + 3, e) && Boundary(t, e) then
      Some(e)
    else
      None
  }

  /** The match TIME's `finditer` finds when it tries position i: the
      24-hour branch's if it has one, else the 12-hour branch's, even where
      the 12-hour match would be longer. */
  function MatchAt(t: string, i: nat): (r: Option<nat>)
    requires i <= |t|
    ensures r.Some? ==> i < r.value <= |t|
    ensures forall e :: r == Some(e) <==> At24(t, i, e) || (At12(t, i, e) && forall e' :: !At24(t, i, e'))
  {
    var r24 := MatchAt24(t, i);
    if r24.Some? then r24 else MatchAt12(t, i)
  }

  /** A 24-hour match found inside a text also matches on its own. */
  lemma SliceMatches24(t: string, i: nat, e: nat)
    requires At24(t, i, e)
    ensures FullMatch24(t[i..e])
  {
    var w := t[i..e];
    assert forall k :: 0 <= k < |w| ==> w[k] == t[i + k];
    SliceBoundaries(t, i, e);
    assert At24(w, 0, |w|);
  }

  /** A 12-hour match found inside a text also matches on its own. */
  lemma SliceMatches12(t: string, i: nat, e: nat)
    requires At12(t, i, e)
    ensures FullMatch12(t[i..e])
  {
    var w := t[i..e];
    var c :| Hour12(t, i, c) && Minutes(t, c) && Meridiem(t, c + 3, e);
    assert forall k :: 0 <= k < |w| ==> w[k] == t[i + k];
    SliceBoundaries(t, i, e);
    assert Hour12(w, 0, c - i) && Minutes(w, c - i) && Meridiem(w, c - i + 3, e - i);
    assert At12(w, 0, |w|);
  }
}
