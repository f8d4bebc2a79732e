/**
 * The scan `re.Pattern.finditer` performs, for any matcher that never
 * matches the empty string: try the pattern at each position of the text
 * from left to right; on a match [i, e) report it and go on from e,
 * otherwise go on from i + 1.
 *
 * A matcher for a text of length n is a function from positions to the
 * end of the match the engine finds there, if any.
 */
module Scanner {
  import opened Wrappers

  /** `match.span()`: a match covers the text from start up to end. */
  datatype Span = Span(start: nat, end: nat)

  /** Every match m reports is non-empty and inside a text of length n. */
  ghost predicate Bounded(m: nat -> Option<nat>, n: nat) {
    forall i: nat :: m(i).Some? ==> i < m(i).value <= n
  }

  /** The spans the scan reports from position pos on. */
  function Scan(m: nat -> Option<nat>, n: nat, pos: nat): (r: seq<Span>)
    requires Bounded(m, n) && pos <= n
    ensures forall k :: 0 <= k < |r| ==> pos <= r[k].start < r[k].end <= n && m(r[k].start) == Some(r[k].end)
    ensures forall k :: 0 < k < |r| ==> r[k - 1].end <= r[k].start
    decreases n - pos
  {
    match m(pos)
    case Some(e) => [Span(pos, e)] + Scan(m, n, e)
    case None => if pos == n then [] else Scan(m, n, pos + 1)
  }

  /** No span covers position i. */
  ghost predicate Uncovered(spans: seq<Span>, i: int) {
    forall k :: 0 <= k < |spans| ==> !(spans[k].start <= i < spans[k].end)
  }

  /** The leftmost-first scan from pos, described without running it: the
      spans are matches, in order and without overlap, and m finds no match
      at any position from pos on that no span covers. */
  ghost predicate IsScan(m: nat -> Option<nat>, n: nat, pos: nat, spans: seq<Span>) {
    (forall k :: 0 <= k < |spans| ==>
      pos <= spans[k].start < spans[k].end <= n && m(spans[k].start) == Some(spans[k].end))
    && (forall k :: 0 < k < |spans| ==> spans[k - 1].end <= spans[k].start)
    && (forall i: nat :: pos <= i <= n && Uncovered(spans, i) ==> m(i).None?)
  }

  /** Spans in order do not overlap, whichever two are compared. */
  lemma {:induction false} Ordered(spans: seq<Span>, j: int, k: int)
    requires forall k :: 0 <= k < |spans| ==> spans[k].start < spans[k].end
    requires forall k :: 0 < k < |spans| ==> spans[k - 1].end <= spans[k].start
    requires 0 <= j < k < |spans|
    ensures spans[j].end <= spans[k].start
    decreases k - j
  {
    if j + 1 < k {
      Ordered(spans, j + 1, k);
    }
  }

  /** A position no span of s + rest covers is covered neither by s nor by
      any span of rest. */
  lemma UncoveredSplit(s: Span, rest: seq<Span>, i: int)
    ensures Uncovered([s] + rest, i) <==> !(s.start <= i < s.end) && Uncovered(rest, i)
  {
    var r := [s] + rest;
    assert r[0] == s;
    assert forall k :: 0 <= k < |rest| ==> rest[k] == r[k + 1];
  }

  /** The scan leaves out no position where m finds a match. */
  lemma {:induction false} ScanGaps(m: nat -> Option<nat>, n: nat, pos: nat, i: nat)
    requires Bounded(m, n) && pos <= i <= n
    requires Uncovered(Scan(m, n, pos), i)
    ensures m(i).None?
    decreases n - pos
  {
    match m(pos)
    case Some(e) =>
      UncoveredSplit(Span(pos, e), Scan(m, n, e), i);
      ScanGaps(m, n, e, i);
    case None =>
      if pos < i {
        ScanGaps(m, n, pos + 1, i);
      }
  }

  /** The scan meets its description. */
  lemma ScanIsScan(m: nat -> Option<nat>, n: nat, pos: nat)
    requires Bounded(m, n) && pos <= n
    ensures IsScan(m, n, pos, Scan(m, n, pos))
  {
    forall i: nat | pos <= i <= n && Uncovered(Scan(m, n, pos), i) ensures m(i).None? {
      ScanGaps(m, n, pos, i);
    }
  }

  /** The first span of a list that fits the description starts at the
      first position where m finds a match. */
  lemma ScanHead(m: nat -> Option<nat>, n: nat, pos: nat, spans: seq<Span>, e: nat)
    requires IsScan(m, n, pos, spans) && pos <= n && m(pos) == Some(e)
    ensures |spans| > 0 && spans[0] == Span(pos, e)
  {
    var k :| 0 <= k < |spans| && spans[k].start <= pos < spans[k].end;
    if k > 0 {
      Ordered(spans, 0, k);
    }
  }

  /** After the first span, the rest fits the description from its end. */
  lemma ScanTail(m: nat -> Option<nat>, n: nat, pos: nat, spans: seq<Span>)
    requires IsScan(m, n, pos, spans) && |spans| > 0
    ensures IsScan(m, n, spans[0].end, spans[1..])
  {
    var rest := spans[1..];
    assert forall k :: 0 <= k < |rest| ==> rest[k] == spans[k + 1];
    TailAfterHead(spans);
    TailGaps(m, n, pos, spans);
  }

  /** In spans in order, every span after the first starts at or after the
      end of the first. */
  lemma TailAfterHead(spans: seq<Span>)
    requires |spans| > 0
    requires forall k :: 0 <= k < |spans| ==> spans[k].start < spans[k].end
    requires forall k :: 0 < k < |spans| ==> spans[k - 1].end <= spans[k].start
    ensures forall k :: 0 <= k < |spans[1..]| ==> spans[0].end <= spans[1..][k].start
  {
    forall j | 0 < j < |spans| ensures spans[0].end <= spans[j].start {
      Ordered(spans, 0, j);
    }
  }

  /** A position after the first span that the other spans leave uncovered
      is uncovered by all of them. */
  lemma TailGaps(m: nat -> Option<nat>, n: nat, pos: nat, spans: seq<Span>)
    requires |spans| > 0 && pos <= spans[0].end
    requires forall i: nat :: pos <= i <= n && Uncovered(spans, i) ==> m(i).None?
    ensures forall i: nat :: spans[0].end <= i <= n && Uncovered(spans[1..], i) ==> m(i).None?
  {
    var rest := spans[1..];
    assert spans == [spans[0]] + rest;
    forall i: nat | spans[0].end <= i <= n && Uncovered(rest, i) ensures m(i).None? {
      UncoveredSplit(spans[0], rest, i);
    }
  }

  /** The description determines the spans: no other list meets it. */
  lemma {:induction false} ScanIsUnique(m: nat -> Option<nat>, n: nat, pos: nat, spans: seq<Span>)
    requires Bounded(m, n) && pos <= n && IsScan(m, n, pos, spans)
    ensures spans == Scan(m, n, pos)
    decreases n - pos, 1
  {
    match m(pos)
    case Some(e) =>
      UniqueAfterMatch(m, n, pos, e, spans);
    case None =>
      UniqueAfterSkip(m, n, pos, spans);
  }

  /** ScanIsUnique where m finds no match at pos. */
  lemma {:induction false} UniqueAfterSkip(m: nat -> Option<nat>, n: nat, pos: nat, spans: seq<Span>)
    requires Bounded(m, n) && pos <= n && IsScan(m, n, pos, spans) && m(pos).None?
    ensures spans == Scan(m, n, pos)
    decreases n - pos, 0
  {
    if pos < n {
      ScanSkip(m, n, pos, spans);
      ScanIsUnique(m, n, pos + 1, spans);
    } else {
      StartsBeforeEnd(m, n, pos, spans);
    }
  }

  /** A list that fits the description from pos is empty unless pos is
      inside the text. */
  lemma StartsBeforeEnd(m: nat -> Option<nat>, n: nat, pos: nat, spans: seq<Span>)
    requires IsScan(m, n, pos, spans)
    ensures |spans| > 0 ==> pos < n
  {
    if |spans| > 0 {
      assert pos <= spans[0].start < spans[0].end <= n;
    }
  }

  /** ScanIsUnique where m finds a match at pos. */
  lemma {:induction false} UniqueAfterMatch(m: nat -> Option<nat>, n: nat, pos: nat, e: nat, spans: seq<Span>)
    requires Bounded(m, n) && pos <= n && IsScan(m, n, pos, spans) && m(pos) == Some(e)
    ensures spans == Scan(m, n, pos)
    decreases n - pos, 0
  {
    ScanHead(m, n, pos, spans, e);
    ScanTail(m, n, pos, spans);
    ScanIsUnique(m, n, e, spans[1..]);
    ScanCons(m, n, pos, e, spans);
  }

  /** A match at pos followed by the scan from its end is the scan from pos. */
  lemma ScanCons(m: nat -> Option<nat>, n: nat, pos: nat, e: nat, spans: seq<Span>)
    requires Bounded(m, n) && pos <= n && m(pos) == Some(e)
    requires |spans| > 0 && spans[0] == Span(pos, e) && spans[1..] == Scan(m, n, e)
    ensures spans == Scan(m, n, pos)
  {
    assert spans == [spans[0]] + spans[1..];
  }

  /** Where m finds no match, a list that fits the description from pos
      fits it from pos + 1. */
  lemma ScanSkip(m: nat -> Option<nat>, n: nat, pos: nat, spans: seq<Span>)
    requires IsScan(m, n, pos, spans) && pos < n && m(pos).None?
    ensures IsScan(m, n, pos + 1, spans)
  {
    forall j | 0 <= j < |spans| ensures pos + 1 <= spans[j].start {
      assert spans[j].start != pos;
    }
  }

  /** The scan is the one list of spans that fits the description. */
  lemma ScanCharacterized(m: nat -> Option<nat>, n: nat, spans: seq<Span>)
    requires Bounded(m, n)
    ensures IsScan(m, n, 0, spans) <==> spans == Scan(m, n, 0)
  {
    ScanIsScan(m, n, 0);
    if IsScan(m, n, 0, spans) {
      ScanIsUnique(m, n, 0, spans);
    }
  }

  /** A match at 0 that covers the whole text is all the scan reports. */
  lemma ScanWhole(m: nat -> Option<nat>, n: nat)
    requires Bounded(m, n) && m(0) == Some(n)
    ensures Scan(m, n, 0) == [Span(0, n)]
  {
    assert m(n).None?;
    assert Scan(m, n, n) == [];
  }

  /** A matcher that can only match at position 0 yields one span at most. */
  lemma {:induction false} ScanFromZeroOnly(m: nat -> Option<nat>, n: nat, pos: nat)
    requires Bounded(m, n) && pos <= n
    requires forall i: nat :: 0 < i ==> m(i).None?
    ensures |Scan(m, n, pos)| <= 1
    ensures 0 < pos ==> Scan(m, n, pos) == []
    decreases n - pos
  {
    if pos < n {
      ScanFromZeroOnly(m, n, pos + 1);
    }
    match m(pos)
    case Some(e) =>
      ScanFromZeroOnly(m, n, e);
    case None =>
  }

  // ---------------------------------------------------------------------
  // The texts of the spans

  /** Every span lies inside t. */
  predicate InText(t: string, spans: seq<Span>) {
    forall k :: 0 <= k < |spans| ==> spans[k].start <= spans[k].end <= |t|
  }

  /** `match.group(0)` of each span. */
  function Texts(t: string, spans: seq<Span>): (r: seq<string>)
    requires InText(t, spans)
    ensures |r| == |spans|
    ensures forall k :: 0 <= k < |r| ==> r[k] == t[spans[k].start..spans[k].end]
  {
    if spans == [] then [] else [t[spans[0].start..spans[0].end]] + Texts(t, spans[1..])
  }

  /** found[k] is t[starts[k]..ends[k]], a non-empty piece of t, and each
      piece starts at or after the end of the one before. */
  predicate Pieces(t: string, found: seq<string>, starts: seq<nat>, ends: seq<nat>) {
    |starts| == |ends| == |found|
    && (forall k :: 0 <= k < |found| ==> starts[k] < ends[k] <= |t| && found[k] == t[starts[k]..ends[k]])
    && (forall k :: 0 < k < |found| ==> ends[k - 1] <= starts[k])
  }

  /** Spans that are non-empty, inside t and in order give pieces of t. */
  lemma OrderedSpansArePieces(t: string, spans: seq<Span>)
    requires forall k :: 0 <= k < |spans| ==> spans[k].start < spans[k].end <= |t|
    requires forall k :: 0 < k < |spans| ==> spans[k - 1].end <= spans[k].start
    ensures exists starts, ends :: Pieces(t, Texts(t, spans), starts, ends)
  {
    var starts := seq(|spans|, k requires 0 <= k < |spans| => spans[k].start);
    var ends := seq(|spans|, k requires 0 <= k < |spans| => spans[k].end);
    assert Pieces(t, Texts(t, spans), starts, ends);
  }

  /** The texts of the scan are pieces of t in left-to-right order that do
      not overlap. */
  lemma TextsInOrder(m: nat -> Option<nat>, t: string)
    requires Bounded(m, |t|)
    ensures exists starts, ends :: Pieces(t, Texts(t, Scan(m, |t|, 0)), starts, ends)
  {
    OrderedSpansArePieces(t, Scan(m, |t|, 0));
  }

  /** The texts of the scan from pos, where m finds a match at pos. */
  lemma TextsAtMatch(m: nat -> Option<nat>, text: string, pos: nat, e: nat)
    requires Bounded(m, |text|) && pos <= |text| && m(pos) == Some(e)
    ensures Texts(text, Scan(m, |text|, pos)) == [text[pos..e]] + Texts(text, Scan(m, |text|, e))
  {
    assert Scan(m, |text|, pos) == [Span(pos, e)] + Scan(m, |text|, e);
  }

  /** The first of the remaining texts moves over to the texts found. */
  lemma MoveFirst(found: seq<string>, x: string, rest: seq<string>, all: seq<string>)
    requires found + ([x] + rest) == all
    ensures (found + [x]) + rest == all
  {
    assert found + ([x] + rest) == (found + [x]) + rest;
  }

  /** One step of Collect at a match: the texts found so far and the
      texts of the scan from pos make up all the texts. */
  lemma CollectMatch(m: nat -> Option<nat>, text: string, pos: nat, e: nat, found: seq<string>)
    requires Bounded(m, |text|) && pos <= |text| && m(pos) == Some(e)
    requires found + Texts(text, Scan(m, |text|, pos)) == Texts(text, Scan(m, |text|, 0))
    ensures (found + [text[pos..e]]) + Texts(text, Scan(m, |text|, e)) == Texts(text, Scan(m, |text|, 0))
  {
    TextsAtMatch(m, text, pos, e);
    MoveFirst(found, text[pos..e], Texts(text, Scan(m, |text|, e)), Texts(text, Scan(m, |text|, 0)));
  }

  /** One step of Collect where m finds no match. */
  lemma CollectSkip(m: nat -> Option<nat>, text: string, pos: nat, found: seq<string>)
    requires Bounded(m, |text|) && pos < |text| && m(pos).None?
    requires found + Texts(text, Scan(m, |text|, pos)) == Texts(text, Scan(m, |text|, 0))
    ensures found + Texts(text, Scan(m, |text|, pos + 1)) == Texts(text, Scan(m, |text|, 0))
  {
  }

  /** At the end of the text, the texts found are all the texts. */
  lemma CollectEnd(m: nat -> Option<nat>, text: string, found: seq<string>)
    requires Bounded(m, |text|)
    requires found + Texts(text, Scan(m, |text|, |text|)) == Texts(text, Scan(m, |text|, 0))
    ensures found == Texts(text, Scan(m, |text|, 0))
  {
    assert m(|text|).None?;
    assert Scan(m, |text|, |text|) == [];
    assert found + [] == found;
  }

  /** `[match.group(0) for match in finditer(text)]`, the scan run step by
      step with m as the engine's answers for text. */
  method Collect(m: nat -> Option<nat>, text: string) returns (found: seq<string>)
    requires Bounded(m, |text|)
    ensures found == Texts(text, Scan(m, |text|, 0))
  {
    found := [];
    var pos := 0;
    while pos < |text|
      invariant pos <= |text|
      invariant found + Texts(text, Scan(m, |text|, pos)) == Texts(text, Scan(m, |text|, 0))
      decreases |text| - pos
    {
      match m(pos)
      case Some(e) =>
        CollectMatch(m, text, pos, e, found);
        found := found + [text[pos..e]];
        pos := e;
      case None =>
        CollectSkip(m, text, pos, found);
        pos := pos + 1;
    }
    CollectEnd(m, text, found);
  }
}
