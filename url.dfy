/**
 * URL_PATTERN (core/regex_patterns.py:35-41), compiled with re.VERBOSE:
 *   \b https?:\/\/ (?:[A-Za-z0-9-]+\.)+[A-Za-z]{2,} (?:\/[\w\-\.%~:?#\[\]@!$&'()*+,;=]*)? \b
 * '/' is not in the path class, so a path is one '/' and what follows it
 * up to the next '/'.
 */
module UrlPattern {
  import opened Wrappers
  import opened Chars

  /** `https?:\/\/` matches t[i..h]. */
  predicate Scheme(t: string, i: int, h: int) {
    0 <= i <= h <= |t| && ((h == i + 7 && t[i..h] == "http://") || (h == i + 8 && t[i..h] == "https://"))
  }

  /** One host label and its dot: `[A-Za-z0-9-]+\.` matches t[j..m+1]. */
  ghost predicate LabelDot(t: string, j: int, m: int) {
    0 <= j < m < |t| && All(t, j, m, LabelPart) && t[m] == '.'
  }

  /** `(?:[A-Za-z0-9-]+\.)+` matches t[j..k]. */
  ghost predicate Labels(t: string, j: int, k: int)
    decreases k - j
  {
    exists m :: LabelDot(t, j, m) && m + 1 <= k && (m + 1 == k || Labels(t, m + 1, k))
  }

  /** `[A-Za-z]{2,}(?:\/[...]*)?` matches t[k..e], the top-level domain ending at q. */
  ghost predicate TldPathSplit(t: string, k: int, q: int, e: int) {
    0 <= k && k + 2 <= q <= e <= |t| && All(t, k, q, Letter)
    && (e == q || (t[q] == '/' && All(t, q + 1, e, PathPart)))
  }

  /** The top-level domain and optional path match t[k..e], and \b holds at e. */
  ghost predicate TldAt(t: string, k: int, e: int) {
    (exists q :: TldPathSplit(t, k, q, e)) && Boundary(t, e)
  }

  /** What follows the scheme, from j: labels, a top-level domain, an
      optional path, and \b at the end e. */
  ghost predicate HostAt(t: string, j: int, e: int) {
    exists k :: Labels(t, j, k) && TldAt(t, k, e)
  }

  /** The pattern matches t[i..e], its two \b judged against the text around it. */
  ghost predicate At(t: string, i: int, e: int) {
    0 <= i <= e <= |t| && Boundary(t, i) && exists h :: Scheme(t, i, h) && HostAt(t, h, e)
  }

  // ---------------------------------------------------------------------
  // The host, character by character

  /** t[j..k] is a dot-terminated host prefix over [A-Za-z0-9.-]: it does
      not start with a dot and no two dots are adjacent. */
  predicate DottedLabels(t: string, j: int, k: int) {
    0 <= j < k <= |t| && t[k - 1] == '.' && All(t, j, k, DomainPart)
    && forall p :: j <= p < k && t[p] == '.' ==> p > j && t[p - 1] != '.'
  }

  lemma LabelDotIsRun(t: string, j: nat, m: int)
    requires LabelDot(t, j, m)
    ensures m == RunEnd(t, j, LabelPart)
  {
  }

  lemma {:induction false} LabelsIsDotted(t: string, j: nat, k: int)
    ensures Labels(t, j, k) <==> DottedLabels(t, j, k)
    decreases k - j
  {
    if Labels(t, j, k) {
      var m :| LabelDot(t, j, m) && m + 1 <= k && (m + 1 == k || Labels(t, m + 1, k));
      if m + 1 < k {
        LabelsIsDotted(t, m + 1, k);
      }
    }
    if DottedLabels(t, j, k) {
      var m := RunEnd(t, j, LabelPart);
      assert !In(LabelPart, t[k - 1]);
      assert LabelDot(t, j, m);
      if m + 1 < k {
        assert t[m + 1] != '.';
        LabelsIsDotted(t, m + 1, k);
      }
    }
  }

  /** The scheme's end, if t has "http://" or "https://" at i. */
  function SchemeEnd(t: string, i: nat): (r: Option<nat>)
    requires i <= |t|
    ensures forall h :: Scheme(t, i, h) <==> r == Some(h)
  {
    assert forall h :: Scheme(t, i, h) && h == i + 8 ==> t[i + 4] == 's' by {
      forall h | Scheme(t, i, h) && h == i + 8 ensures t[i + 4] == 's' {
        assert t[i..h][4] == 's';
      }
    }
    if i + 7 <= |t| && t[i..i + 7] == "http://" then
      assert t[i..i + 7][4] == ':';
      Some(i + 7)
    else if i + 8 <= |t| && t[i..i + 8] == "https://" then Some(i + 8)
    else None
  }

  /** After the scheme ending at h: labels over [A-Za-z0-9.-] that end in a
      dot, at least two letters, then nothing or a '/' and path characters
      ending with a word character. */
  predicate WholeHost(s: string, h: nat)
    requires h <= |s|
  {
    var slash := RunEnd(s, h, DomainPart);
    var z := RunStart(s, slash, Letter);
    h < z && z + 2 <= slash && DottedLabels(s, h, z)
    && (slash == |s| || (s[slash] == '/' && All(s, slash + 1, |s|, PathPart) && IsWord(s[|s| - 1])))
  }

  lemma WholeHostSound(s: string, h: nat)
    requires Scheme(s, 0, h) && WholeHost(s, h)
    ensures At(s, 0, |s|)
  {
    var slash := RunEnd(s, h, DomainPart);
    var z := RunStart(s, slash, Letter);
    LabelsIsDotted(s, h, z);
    assert TldPathSplit(s, z, slash, |s|);
    assert HostAt(s, h, |s|);
  }

  lemma WholeHostComplete(s: string, h: nat)
    requires HostAt(s, h, |s|)
    ensures WholeHost(s, h)
  {
    var k :| Labels(s, h, k) && TldAt(s, k, |s|);
    var q :| TldPathSplit(s, k, q, |s|);
    LabelsIsDotted(s, h, k);
    var slash := RunEnd(s, h, DomainPart);
    assert q == slash by {
      assert All(s, h, q, DomainPart);
    }
    assert RunStart(s, slash, Letter) == k by {
      assert !In(Letter, s[k - 1]);
    }
  }

  lemma SchemeUnique(t: string, i: int, h: int, h': int)
    requires Scheme(t, i, h) && Scheme(t, i, h')
    ensures h == h'
  {
    SchemeColon(t, i, h);
    SchemeColon(t, i, h');
  }

  /** "http://" has its colon where "https://" has its 's'. */
  lemma SchemeColon(t: string, i: int, h: int)
    requires Scheme(t, i, h)
    ensures h == i + 7 <==> t[i + 4] == ':'
  {
    assert t[i..h][4] == t[i + 4];
  }

  /** `URL.is_match(s)`: the scheme, then the host and path of WholeHost. */
  function FullMatch(s: string): (r: bool)
    ensures r <==> At(s, 0, |s|)
  {
    match SchemeEnd(s, 0)
    case None => false
    case Some(h) =>
      assert WholeHost(s, h) <==> At(s, 0, |s|) by {
        if WholeHost(s, h) {
          WholeHostSound(s, h);
        }
        if At(s, 0, |s|) {
          var h' :| Scheme(s, 0, h') && HostAt(s, h', |s|);
          SchemeUnique(s, 0, h, h');
          WholeHostComplete(s, h);
        }
      }
      WholeHost(s, h)
  }

  // ---------------------------------------------------------------------
  // Search

  /** The largest e with lo <= e <= hi where \b holds: the engine backing off
      the greedy path run one character at a time. */
  function LastBoundary(t: string, lo: nat, hi: nat): (r: Option<nat>)
    requires hi <= |t|
    ensures r.Some? ==> lo <= r.value <= hi && Boundary(t, r.value)
    ensures forall e :: lo <= e <= hi && Boundary(t, e) ==> r.Some? && e <= r.value
    decreases hi
  {
    if hi < lo then None
    else if Boundary(t, hi) then Some(hi)
    else if hi == 0 then None
    else LastBoundary(t, lo, hi - 1)
  }

  /** The top-level domain, the optional path and \b from k. The greedy
      letter run is the only end of the domain that can work; after it the
      path is tried before no path. */
  function TldPathEnd(t: string, k: nat): (r: Option<nat>)
    requires k <= |t|
    ensures r.Some? ==> k < r.value <= |t| && TldAt(t, k, r.value)
    ensures forall e :: TldAt(t, k, e) ==> r.Some? && e <= r.value
  {
    var q := RunEnd(t, k, Letter);
    var r: Option<nat> :=
      if q < k + 2 then None
      else if q < |t| && t[q] == '/' then
        var b := LastBoundary(t, q + 1, RunEnd(t, q + 1, PathPart));
        if b.Some? then b else Some(q)
      else if Boundary(t, q) then Some(q)
      else None;
    assert r.Some? ==> TldPathSplit(t, k, q, r.value);
    assert forall e :: TldAt(t, k, e) ==> r.Some? && e <= r.value by {
      forall e | TldAt(t, k, e) ensures r.Some? && e <= r.value {
        var q' :| TldPathSplit(t, k, q', e);
        assert q' < |t| ==> !In(Letter, t[q']);
      }
    }
    r
  }

  /** A match from j ends at least three characters past the end of the
      first label, which is followed by a dot. */
  lemma HostAtPastFirstLabel(t: string, j: nat, e: int)
    requires HostAt(t, j, e)
    ensures RunEnd(t, j, LabelPart) < |t| && t[RunEnd(t, j, LabelPart)] == '.'
    ensures e >= RunEnd(t, j, LabelPart) + 3
  {
    var k :| Labels(t, j, k) && TldAt(t, k, e);
    var q :| TldPathSplit(t, k, q, e);
    var m :| LabelDot(t, j, m) && m + 1 <= k && (m + 1 == k || Labels(t, m + 1, k));
    LabelDotIsRun(t, j, m);
    if m + 1 < k {
      var m2 :| LabelDot(t, m + 1, m2) && m2 + 1 <= k && (m2 + 1 == k || Labels(t, m2 + 1, k));
    }
  }

  /** A top-level domain that starts where a further label starts ends
      before that label's dot, and takes no path. */
  lemma TldInsideLabel(t: string, k: nat, e: int, m: nat)
    requires TldAt(t, k, e)
    requires m == RunEnd(t, k, LabelPart) && m < |t| && t[m] == '.'
    ensures e <= m
  {
    var q :| TldPathSplit(t, k, q, e);
    assert !In(Letter, t[m]);
    assert e > q ==> t[q] == '/';
    assert q < m ==> In(LabelPart, t[q]);
  }

  /** A label and its dot in front of a match from m + 1, or in front of a
      top-level domain at m + 1, make a match from j. */
  lemma HostAtExtend(t: string, j: nat, m: nat, e: int)
    requires LabelDot(t, j, m)
    requires HostAt(t, m + 1, e) || TldAt(t, m + 1, e)
    ensures HostAt(t, j, e)
  {
    if HostAt(t, m + 1, e) {
      var k :| Labels(t, m + 1, k) && TldAt(t, k, e);
      assert Labels(t, j, k);
    } else {
      assert Labels(t, j, m + 1);
    }
  }

  /** A match from j is the first label and its dot, then either a match
      from after the dot or a top-level domain right after it. */
  lemma HostAtSplit(t: string, j: nat, e: int)
    requires HostAt(t, j, e)
    ensures var m := RunEnd(t, j, LabelPart);
      m < |t| && (HostAt(t, m + 1, e) || TldAt(t, m + 1, e))
  {
    var k :| Labels(t, j, k) && TldAt(t, k, e);
    var m :| LabelDot(t, j, m) && m + 1 <= k && (m + 1 == k || Labels(t, m + 1, k));
    LabelDotIsRun(t, j, m);
    if m + 1 < k {
      assert HostAt(t, m + 1, e);
    }
  }

  /** The step of HostFrom's longest-match proof: with more labels (more)
      tried before the top-level domain (tld), nothing from j ends later. */
  lemma HostFromStep(t: string, j: nat, m: nat, k: nat, more: Option<nat>, tld: Option<nat>, e: int)
    requires j <= m < |t| && m == RunEnd(t, j, LabelPart) && t[m] == '.' && k == m + 1
    requires more.Some? ==> HostAt(t, k, more.value)
    requires forall e :: HostAt(t, k, e) ==> more.Some? && e <= more.value
    requires forall e :: TldAt(t, k, e) ==> tld.Some? && e <= tld.value
    requires HostAt(t, j, e)
    ensures var r := if more.Some? then more else tld; r.Some? && e <= r.value
  {
    HostAtSplit(t, j, e);
    if more.Some? && !HostAt(t, k, e) {
      HostAtPastFirstLabel(t, k, more.value);
      TldInsideLabel(t, k, e, RunEnd(t, k, LabelPart));
    }
  }

  /** HostFrom's answer when a label and its dot end at m: the longest
      match from after the dot (more) if there is one, else the top-level
      domain right after the dot (tld). */
  lemma HostFromLabels(t: string, j: nat, m: nat, k: nat, more: Option<nat>, tld: Option<nat>)
    requires LabelDot(t, j, m) && m == RunEnd(t, j, LabelPart) && k == m + 1
    requires more.Some? ==> k < more.value <= |t| && HostAt(t, k, more.value)
    requires forall e :: HostAt(t, k, e) ==> more.Some? && e <= more.value
    requires tld.Some? ==> k < tld.value <= |t| && TldAt(t, k, tld.value)
    requires forall e :: TldAt(t, k, e) ==> tld.Some? && e <= tld.value
    ensures var r := if more.Some? then more else tld;
      (r.Some? ==> j < r.value <= |t| && HostAt(t, j, r.value))
      && forall e :: HostAt(t, j, e) ==> r.Some? && e <= r.value
  {
    var r := if more.Some? then more else tld;
    if r.Some? {
      HostAtExtend(t, j, m, r.value);
    }
    forall e | HostAt(t, j, e) ensures r.Some? && e <= r.value {
      HostFromStep(t, j, m, k, more, tld, e);
    }
  }

  /** Without a label and its dot at j, nothing matches from j. */
  lemma NoHostAt(t: string, j: nat)
    requires j <= |t|
    requires var m := RunEnd(t, j, LabelPart); m == j || m == |t| || t[m] != '.'
    ensures forall e :: !HostAt(t, j, e)
  {
    forall e | HostAt(t, j, e) ensures false {
      HostAtPastFirstLabel(t, j, e);
    }
  }

  /** The labels from j: the engine's greedy repetition tries one more label
      before it settles for a top-level domain, and its first success is the
      longest match. */
  function HostFrom(t: string, j: nat): (r: Option<nat>)
    requires j <= |t|
    ensures r.Some? ==> j < r.value <= |t| && HostAt(t, j, r.value)
    ensures forall e :: HostAt(t, j, e) ==> r.Some? && e <= r.value
    decreases |t| - j
  {
    var m := RunEnd(t, j, LabelPart);
    if m == j || m == |t| || t[m] != '.' then
      NoHostAt(t, j);
      None
    else
      var more := HostFrom(t, m + 1);
      var tld := TldPathEnd(t, m + 1);
      HostFromLabels(t, j, m, m + 1, more, tld);
      if more.Some? then more else tld
  }

  /** The match `finditer` finds when it tries position i: the longest the
      pattern allows there, which is also the engine's first. */
  function MatchAt(t: string, i: nat): (r: Option<nat>)
    requires i <= |t|
    ensures r.Some? ==> i < r.value <= |t| && At(t, i, r.value)
    ensures forall e :: At(t, i, e) ==> r.Some? && e <= r.value
  {
    if !Boundary(t, i) then None
    else
      match SchemeEnd(t, i)
      case None => None
      case Some(h) => HostFrom(t, h)
  }

  /** The longest match from i ends with a word character: a match ending
      after a non-word path character has \b only because a word character
      follows, and the path can take that word run too. */
  lemma LongestEndsWithWord(t: string, i: nat, e: nat)
    requires At(t, i, e)
    requires forall e' :: At(t, i, e') ==> e' <= e
    ensures IsWord(t[e - 1])
  {
    ExtendOverWord(t, i, e);
  }

  /** A match from i that ends after a non-word character extends over the
      word run that follows it. */
  lemma ExtendOverWord(t: string, i: nat, e: nat)
    requires At(t, i, e)
    ensures 0 < e && (!IsWord(t[e - 1]) ==> e < RunEnd(t, e, Word) && At(t, i, RunEnd(t, e, Word)))
  {
    var h :| Scheme(t, i, h) && HostAt(t, h, e);
    var k :| Labels(t, h, k) && TldAt(t, k, e);
    var q :| TldPathSplit(t, k, q, e);
    if !IsWord(t[e - 1]) {
      var e' := RunEnd(t, e, Word);
      assert TldPathSplit(t, k, q, e') by {
        AllWordIsPath(t, e, e');
      }
      assert HostAt(t, h, e');
    }
  }

  lemma AllWordIsPath(t: string, a: int, b: int)
    requires All(t, a, b, Word)
    ensures All(t, a, b, PathPart)
  {
  }

  /** The host's labels, read in the slice t[i..e]. */
  lemma LabelsSlice(t: string, i: nat, e: nat, h: nat, k: nat)
    requires i <= h && k <= e <= |t| && Labels(t, h, k)
    ensures Labels(t[i..e], h - i, k - i)
  {
    var w := t[i..e];
    LabelsIsDotted(t, h, k);
    LabelsIsDotted(w, h - i, k - i);
    AllSlice(t, i, e, h, k, DomainPart);
    forall p | h - i <= p < k - i && w[p] == '.' ensures p > h - i && w[p - 1] != '.' {
      assert w[p] == t[p + i];
    }
  }

  /** The top-level domain and path, read in the slice t[i..e]. */
  lemma TldPathSlice(t: string, i: nat, e: nat, k: nat, q: nat)
    requires i <= k && TldPathSplit(t, k, q, e)
    ensures TldPathSplit(t[i..e], k - i, q - i, e - i)
  {
    AllSlice(t, i, e, k, q, Letter);
    if e > q {
      AllSlice(t, i, e, q + 1, e, PathPart);
    }
  }

  /** A match found inside a text that ends with a word character also
      matches on its own. */
  lemma SliceMatches(t: string, i: nat, e: nat)
    requires At(t, i, e) && IsWord(t[e - 1])
    ensures FullMatch(t[i..e])
  {
    var h :| Scheme(t, i, h) && HostAt(t, h, e);
    var w := t[i..e];
    SliceBoundaries(t, i, e);
    SchemeSlice(t, i, e, h);
    HostSlice(t, i, e, h);
    assert At(w, 0, |w|);
  }

  /** The host and path, read in the slice t[i..e] that ends with them. */
  lemma HostSlice(t: string, i: nat, e: nat, h: nat)
    requires i <= h && HostAt(t, h, e) && IsWord(t[e - 1])
    ensures HostAt(t[i..e], h - i, e - i)
  {
    var k :| Labels(t, h, k) && TldAt(t, k, e);
    var q :| TldPathSplit(t, k, q, e);
    var w := t[i..e];
    LabelsSlice(t, i, e, h, k);
    TldPathSlice(t, i, e, k, q);
    assert Boundary(w, e - i);
    assert TldAt(w, k - i, e - i);
  }

  /** The scheme, read in the slice t[i..e]. */
  lemma SchemeSlice(t: string, i: nat, e: nat, h: nat)
    requires Scheme(t, i, h) && h <= e <= |t|
    ensures Scheme(t[i..e], 0, h - i)
  {
    assert t[i..e][0..h - i] == t[i..h];
  }
}
